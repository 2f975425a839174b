/** Which code a command is denied with: the first of its conditions that fails, each stated
    on the record and the actors themselves. */
module ReconcileDeskDenials {
  import opened Basics
  import opened ReconcileDesk
  import opened ReconcileDeskSafety
  import opened ReconcileDeskEffects

  /** The event was denied with this code. */
  ghost predicate Denied(m: Machine, e: Event, code: Code) {
    Handle(m, e) == Some(Outcome(m, code))
  }

  ghost predicate IsCommand(e: Event) {
    e.Do? && !e.command.Execute? && !e.command.Unknown?
  }

  ghost function Asked(e: Event): Option<RoleName>
    requires e.Do?
  {
    if e.command.Edit? || e.command.Reconcile? || e.command.Prepare? then Some(AnalystRole) else None
  }

  /** The actor is known, of the tenant, of the scope and current, as far as `checks` goes. */
  ghost predicate Stands(c: Config, name: Option<string>, checks: nat) {
    && name.Some? && name.value in c.actors
    && (checks > 0 ==> c.actors[name.value].tenant == c.tenant)
    && (checks > 1 ==> c.actors[name.value].scope == c.scope)
    && (checks > 2 ==> c.actors[name.value].current)
  }

  // ------------------------------------------------------------------------
  // At the door
  // ------------------------------------------------------------------------

  /** A command is turned away for an unknown actor, one of another tenant, of another scope,
      or revoked, in this order. */
  lemma ActorDenials(m: Machine, e: Event)
    requires IsCommand(e)
    ensures Denied(m, e, IDENTITY_DENIED) <==> !Stands(m.config, e.actingAs, 0)
    ensures Denied(m, e, TENANT_DENIED) <==> Stands(m.config, e.actingAs, 0) && !Stands(m.config, e.actingAs, 1)
    ensures Denied(m, e, SCOPE_DENIED) <==> Stands(m.config, e.actingAs, 1) && !Stands(m.config, e.actingAs, 2)
    ensures Denied(m, e, AUTHORITY_REVOKED) <==> Stands(m.config, e.actingAs, 2) && !Stands(m.config, e.actingAs, 3)
  {
    if Stands(m.config, e.actingAs, 3) {
      LaterCodes(m, e);
    }
  }

  /** What a command may be answered with once its actor stands. */
  ghost predicate Late(code: Code) {
    code !in {IDENTITY_DENIED, TENANT_DENIED, SCOPE_DENIED, AUTHORITY_REVOKED}
  }

  lemma LaterCodes(m: Machine, e: Event)
    requires IsCommand(e) && Stands(m.config, e.actingAs, 3)
    ensures Handle(m, e).Some? ==> Late(Handle(m, e).value.code)
  {
    if Turned(m, e.command, e.actingAs, e.ref, e.race).None? && e.command.Reconcile? {
      TotalFaults(m.record.bookMinor);
      TotalFaults(m.record.bankMinor);
    }
  }

  /** A standing actor is turned away without the role, on another revision of the record, or
      in a race, in this order. */
  lemma DoorDenials(m: Machine, e: Event)
    requires IsCommand(e) && Stands(m.config, e.actingAs, 3)
    ensures !MayAct(m.config, e.actingAs.value, Asked(e)) ==> Denied(m, e, ROLE_DENIED)
    ensures Denied(m, e, RECORD_REF_MISMATCH) <==>
      MayAct(m.config, e.actingAs.value, Asked(e)) && e.ref.Some? && e.ref != Some(m.record.ref)
    ensures Denied(m, e, COMMIT_CONFLICT) <==>
      MayAct(m.config, e.actingAs.value, Asked(e)) && (e.ref == None || e.ref == Some(m.record.ref)) && e.race
  {
    RefusalExactly(m.config, e.actingAs, Asked(e));
    if Turned(m, e.command, e.actingAs, e.ref, e.race).None? {
      AdmittedCodes(m, e);
    }
  }

  lemma AdmittedCodes(m: Machine, e: Event)
    requires IsCommand(e) && Turned(m, e.command, e.actingAs, e.ref, e.race).None?
    ensures Handle(m, e).Some? ==> Handle(m, e).value.code !in {RECORD_REF_MISMATCH, COMMIT_CONFLICT}
  {
    if e.command.Reconcile? {
      TotalFaults(m.record.bookMinor);
      TotalFaults(m.record.bankMinor);
    }
  }

  // ------------------------------------------------------------------------
  // At the record
  // ------------------------------------------------------------------------

  ghost predicate InPhase(m: Machine, e: Event)
    requires e.Do?
  {
    || (e.command.Reconcile? && m.phase == Draft)
    || (e.command.Approve? && m.phase in {Reconciled, Approved})
    || (e.command.Prepare? && m.phase in {Approved, Prepared})
  }

  ghost predicate ChangesRecord(e: Event) {
    e.Do? && (e.command.Reconcile? || e.command.Approve? || e.command.Prepare?)
  }

  /** An admitted command fails on the state of the record, on its release, or on its
      evidence, in this order: sources that are not the current ones or stale, conflicting
      ones, or not two known ones. */
  lemma StateDenials(m: Machine, e: Event)
    requires ChangesRecord(e) && Admissible(m, e, Asked(e))
    ensures var same := m.record.sourceRefs == m.config.sourceCurrent; var status := m.config.sourceStatus;
      var ready := InPhase(m, e) && m.record.release == m.config.activeRelease;
      && (Denied(m, e, INVALID_STATE) <==> !InPhase(m, e))
      && (Denied(m, e, RELEASE_CHANGED) <==> InPhase(m, e) && m.record.release != m.config.activeRelease)
      && (Denied(m, e, SOURCE_STALE) <==> ready && (!same || IsStale in status))
      && (Denied(m, e, EVIDENCE_CONFLICTING) <==> ready && same && IsStale !in status && IsConflicting in status)
      && (Denied(m, e, EVIDENCE_UNKNOWN) <==>
            ready && same && IsStale !in status && IsConflicting !in status && status != [IsKnown, IsKnown])
  {
    TurnedExactly(m, e);
    assert Handle(m, e) == OnRecord(m, e.command, e.actingAs.value, m.config.actors[e.actingAs.value]);
    FreshCodes(m, e.command, e.actingAs.value, m.config.actors[e.actingAs.value]);
  }

  lemma FreshCodes(m: Machine, command: Command, name: string, actor: Actor)
    ensures var o := OnRecord(m, command, name, actor);
      o.Some? && FreshnessFault(m.config, m.record).None? && PhaseAllows(m.phase, command) && m.record.release == m.config.activeRelease
      ==> o.value.code !in {INVALID_STATE, RELEASE_CHANGED, SOURCE_STALE, EVIDENCE_CONFLICTING, EVIDENCE_UNKNOWN}
  {
    TotalFaults(m.record.bookMinor);
    TotalFaults(m.record.bankMinor);
  }

  // ------------------------------------------------------------------------
  // In the command itself
  // ------------------------------------------------------------------------

  /** An edit that names other fields, an execution and an unknown command are denied; so is
      the activation of an unknown release. */
  lemma CommandDenials(m: Machine, e: Event)
    ensures Denied(m, e, EXECUTION_OUT_OF_SCOPE) <==> e.Do? && e.command.Execute?
    ensures Denied(m, e, UNKNOWN_COMMAND) <==> e.Do? && e.command.Unknown?
    ensures Denied(m, e, INVALID_EDIT) <==>
      Admissible(m, e, Some(AnalystRole)) && e.command.Edit? && e.command.changes.Some? && e.command.changes.value.other
    ensures Denied(m, e, UNKNOWN_RELEASE) <==> e.Activate? && e.release !in {R1, R2}
  {
    if IsCommand(e) {
      TurnedExactly(m, e);
      if Turned(m, e.command, e.actingAs, e.ref, e.race).None? {
        RecordCodes(m, e.command, e.actingAs.value, m.config.actors[e.actingAs.value]);
      }
    }
  }

  lemma RecordCodes(m: Machine, command: Command, name: string, actor: Actor)
    ensures var o := OnRecord(m, command, name, actor);
      o.Some? ==> o.value.code !in {EXECUTION_OUT_OF_SCOPE, UNKNOWN_COMMAND, INVALID_EDIT, UNKNOWN_RELEASE}
  {
    TotalFaults(m.record.bookMinor);
    TotalFaults(m.record.bankMinor);
  }

  ghost predicate Supported(r: Record) {
    exists limit :: Limit(r.release, r.currency, limit)
  }

  /** The lines are well-formed and their sum has at most 38 digits. */
  ghost predicate Fits(lines: Lines) {
    WellFormed(lines) && ExactSum(lines.values) < TOO_LARGE
  }

  ghost predicate Overflows(lines: Lines) {
    WellFormed(lines) && ExactSum(lines.values) >= TOO_LARGE
  }

  /** How the sides of the record decide. */
  ghost predicate SidesDecide(m: Machine, o: Outcome) {
    var r := m.record;
    var one := r.currency == r.bookCurrency == r.bankCurrency;
    && (o.code == UNSUPPORTED_CURRENCY <==> !Supported(r))
    && (o.code == CURRENCY_MISMATCH <==> Supported(r) && !one)
    && (o.code == INVALID_QUANTITY <==>
          Supported(r) && one && (!WellFormed(r.bookMinor) || (Fits(r.bookMinor) && !WellFormed(r.bankMinor))))
    && (o.code == QUANTITY_OVERFLOW <==>
          Supported(r) && one && (Overflows(r.bookMinor) || (Fits(r.bookMinor) && Overflows(r.bankMinor))))
    && (o.code == AMOUNT_MISMATCH <==>
          Supported(r) && one && Fits(r.bookMinor) && Fits(r.bankMinor) && ExactSum(r.bookMinor.values) != ExactSum(r.bankMinor.values))
    && (o.code == AMOUNT_MISMATCH ==>
          var book, bank := ExactSum(r.bookMinor.values), ExactSum(r.bankMinor.values);
          o.machine == m.(amount := Some(book), delta := Some(book - bank)))
    && (o.code !in {RECONCILED, AMOUNT_MISMATCH} ==> o.machine == m)
  }

  /** A fresh draft is not reconciled in a currency its release does not support, in mixed
      currencies, with malformed or overlong lines on the book side or else on the bank side,
      or when the sides differ; only then the amounts found stay. */
  lemma ReconcileDenials(m: Machine, e: Event)
    requires Admissible(m, e, Some(AnalystRole)) && e.command == Reconcile && m.phase == Draft && Fresh(m)
    ensures Handle(m, e).Some? && SidesDecide(m, Handle(m, e).value)
  {
    AtTheRecord(m, e);
    SupportedExactly(m.record);
    TotalIsTheSum(m.record.bookMinor);
    TotalIsTheSum(m.record.bankMinor);
    var r := m.record;
    if Supported(r) && r.currency == r.bookCurrency == r.bankCurrency {
      Decided(m, Total(r.bookMinor), Total(r.bankMinor));
    }
  }

  lemma Decided(m: Machine, book: Result<nat, Code>, bank: Result<nat, Code>)
    requires Supported(m.record) && m.record.currency == m.record.bookCurrency == m.record.bankCurrency
    requires TotalOf(m.record.bookMinor, book) && TotalOf(m.record.bankMinor, bank)
    ensures SidesDecide(m, Compared(m, book, bank))
  {
  }

  ghost predicate TotalOf(lines: Lines, total: Result<nat, Code>) {
    && (total == Err(INVALID_QUANTITY) <==> !WellFormed(lines))
    && (total == Err(QUANTITY_OVERFLOW) <==> Overflows(lines))
    && (total.Ok? <==> Fits(lines))
    && (total.Ok? ==> total.value == ExactSum(lines.values))
    && (total.Err? ==> total.error in {INVALID_QUANTITY, QUANTITY_OVERFLOW})
  }

  /** A fresh record in a phase that the command asks for is decided by the command itself. */
  lemma AtTheRecord(m: Machine, e: Event)
    requires ChangesRecord(e) && Admissible(m, e, Asked(e)) && InPhase(m, e) && Fresh(m)
    ensures Handle(m, e) ==
      if e.command.Reconcile? then Some(DoReconcile(m))
      else if e.command.Approve? then DoApprove(m, e.actingAs.value, m.config.actors[e.actingAs.value])
      else Some(DoPrepare(m))
  {
    TurnedExactly(m, e);
    FreshExactly(m);
  }

  lemma SupportedExactly(r: Record)
    ensures Supported(r) <==> Threshold(r.release, r.currency).Some?
  {
    if Threshold(r.release, r.currency).Some? {
      assert Limit(r.release, r.currency, Threshold(r.release, r.currency).value);
    }
  }

  /** Nobody approves the own record, without being partner or compliance, or beside the own
      approval in the other role, in this order. */
  lemma ApproveDenials(m: Machine, e: Event)
    requires Sound(m) && Admissible(m, e, None) && e.command == Approve && m.phase in {Reconciled, Approved} && Fresh(m)
    ensures var a := m.config.actors[e.actingAs.value];
      var approver := PartnerRole in a.roles || ComplianceRole in a.roles;
      && (Denied(m, e, SELF_APPROVAL_DENIED) <==> a.principal == m.record.author)
      && (Denied(m, e, ROLE_DENIED) <==> a.principal != m.record.author && !approver)
      && (Denied(m, e, PRINCIPAL_SEPARATION_DENIED) <==>
            a.principal != m.record.author && exists role :: ApprovesAs(a, role) && !Independent(m, a, role))
  {
    AtTheRecord(m, e);
    var a := m.config.actors[e.actingAs.value];
    var role := ApprovalRole(a);
    assert forall other :: ApprovesAs(a, other) <==> role == Some(other);
    if role.Some? && a.principal != m.record.author {
      SeparatedExactly(m, a, role.value);
    }
    ApprovalDenied(m, e.actingAs.value, a);
  }

  lemma ApprovalDenied(m: Machine, name: string, a: Actor)
    ensures var o := DoApprove(m, name, a); var role := ApprovalRole(a); var own := a.principal == m.record.author;
      && (o == Some(Outcome(m, SELF_APPROVAL_DENIED)) <==> own)
      && (o == Some(Outcome(m, ROLE_DENIED)) <==> !own && role.None?)
      && (o == Some(Outcome(m, PRINCIPAL_SEPARATION_DENIED)) <==>
            !own && role.Some? && !Separated(m.config, m.approvals, role.value, a.principal))
  {
  }

  lemma SeparatedExactly(m: Machine, a: Actor, role: Role)
    requires Sound(m) && a.principal != m.record.author
    ensures Separated(m.config, m.approvals, role, a.principal) <==> Independent(m, a, role)
  {
    assert forall other :: other in m.approvals ==> m.approvals[other] in m.config.actors;
  }

  /** A preparation is denied to an analyst exactly for an approver who may no longer act. */
  lemma PrepareDenials(m: Machine, e: Event)
    requires Admissible(m, e, Some(AnalystRole)) && e.command == Prepare && m.phase in {Approved, Prepared} && Fresh(m)
    ensures Denied(m, e, APPROVER_AUTHORITY_REVOKED) <==>
      || (Partner in m.approvals && !MayAct(m.config, m.approvals[Partner], Some(PartnerRole)))
      || (Compliance in m.approvals && !MayAct(m.config, m.approvals[Compliance], Some(ComplianceRole)))
  {
    AtTheRecord(m, e);
    AuthorizedExactly(m);
  }

  // ------------------------------------------------------------------------
  // Errors of the language
  // ------------------------------------------------------------------------

  lemma RecordNeverStops(m: Machine, command: Command, name: string, actor: Actor)
    requires Sound(m) && name in m.config.actors && m.config.actors[name] == actor
    ensures OnRecord(m, command, name, actor).Some?
  {
    if m.phase != Draft {
      ApproveOutcome(m, name, actor);
    }
  }

  /** A source that does not exist, counted from either end; the revocation of an unknown
      actor; an admitted edit without a record, or of a record whose reference has no revision. */
  ghost predicate Fails(m: Machine, e: Event) {
    match e
    case Restart => false
    case Refresh(source, _) => source >= |m.config.sourceCurrent| || source < -|m.config.sourceCurrent|
    case Activate(_) => false
    case Revoke(name) => name !in m.config.actors
    case Do(command, _, _, _) =>
      && command.Edit? && Admissible(m, e, Some(AnalystRole))
      && (command.changes.None? || (!command.changes.value.other && m.record.ref.Odd?))
  }

  /** The program stops with an error of the language on exactly these events. */
  lemma StopsExactly(m: Machine, e: Event)
    requires Sound(m)
    ensures Handle(m, e).None? <==> Fails(m, e)
  {
    if IsCommand(e) {
      TurnedExactly(m, e);
      if Turned(m, e.command, e.actingAs, e.ref, e.race).None? {
        RecordNeverStops(m, e.command, e.actingAs.value, m.config.actors[e.actingAs.value]);
      }
    }
  }

  ghost predicate FailsAt(c: Config, r: Record, events: seq<Event>, k: nat)
    requires k < |events|
  {
    Replay(Start(c, r), events[..k]).Some? && Fails(Replay(Start(c, r), events[..k]).value, events[k])
  }

  /** A replay goes through exactly when no event fails in the machine it meets. */
  lemma {:induction false} ReplayStopsExactly(c: Config, r: Record, events: seq<Event>)
    ensures Replay(Start(c, r), events).None? <==> exists k :: 0 <= k < |events| && FailsAt(c, r, events, k)
  {
    if events != [] {
      var n := |events| - 1;
      ReplayStopsExactly(c, r, events[..n]);
      forall k | 0 <= k < n ensures FailsAt(c, r, events[..n], k) <==> FailsAt(c, r, events, k) {
        assert events[..n][..k] == events[..k];
      }
      if Replay(Start(c, r), events[..n]).Some? {
        LastFails(c, r, events);
      }
    }
  }

  lemma LastFails(c: Config, r: Record, events: seq<Event>)
    requires events != [] && Replay(Start(c, r), events[..|events| - 1]).Some?
    ensures Replay(Start(c, r), events).None? <==> FailsAt(c, r, events, |events| - 1)
  {
    SoundInEveryReplay(c, r, events[..|events| - 1]);
    StopsExactly(Replay(Start(c, r), events[..|events| - 1]).value, events[|events| - 1]);
  }
}
