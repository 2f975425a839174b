/** When each command succeeds and what it writes, stated on the record and the actors
    themselves, and who wrote the record that is approved. */
module ReconcileDeskEffects {
  import opened Basics
  import Decimal
  import opened ReconcileDesk
  import opened ReconcileDeskSafety

  // ------------------------------------------------------------------------
  // Who may act, and on what evidence
  // ------------------------------------------------------------------------

  /** A current actor of the tenant and scope, with the role (with some role, when none is asked for). */
  ghost predicate MayAct(c: Config, name: string, asked: Option<RoleName>) {
    && name in c.actors
    && var a := c.actors[name];
    && a.tenant == c.tenant && a.scope == c.scope && a.current
    && (if asked == None then a.roles != {} else asked.value in a.roles)
  }

  ghost predicate Admissible(m: Machine, e: Event, asked: Option<RoleName>) {
    && e.Do? && e.actingAs.Some? && MayAct(m.config, e.actingAs.value, asked)
    && (e.ref == None || e.ref == Some(m.record.ref)) && !e.race
  }

  /** The record is of the active release, and its sources are the current ones, both known. */
  ghost predicate Fresh(m: Machine) {
    && m.record.release == m.config.activeRelease
    && m.record.sourceRefs == m.config.sourceCurrent && m.config.sourceStatus == [IsKnown, IsKnown]
  }

  lemma RefusalExactly(c: Config, name: Option<string>, asked: Option<RoleName>)
    ensures Refusal(c, name, asked).None? <==> name.Some? && MayAct(c, name.value, asked)
  {
  }

  lemma FreshExactly(m: Machine)
    ensures m.record.release == m.config.activeRelease && FreshnessFault(m.config, m.record).None? <==> Fresh(m)
  {
    if m.config.sourceStatus == [IsKnown, IsKnown] {
      assert IsStale !in m.config.sourceStatus && IsConflicting !in m.config.sourceStatus;
    }
  }

  lemma TurnedExactly(m: Machine, e: Event)
    requires e.Do? && !e.command.Execute? && !e.command.Unknown?
    ensures Turned(m, e.command, e.actingAs, e.ref, e.race).None? <==>
      Admissible(m, e, if e.command.Edit? || e.command.Reconcile? || e.command.Prepare? then Some(AnalystRole) else None)
  {
    RefusalExactly(m.config, e.actingAs, if e.command.Edit? || e.command.Reconcile? || e.command.Prepare? then Some(AnalystRole) else None);
  }

  /** The event was handled, with this code. */
  predicate Answers(m: Machine, e: Event, code: Code) {
    Handle(m, e).Some? && Handle(m, e).value.code == code
  }

  // ------------------------------------------------------------------------
  // Reading
  // ------------------------------------------------------------------------

  /** What a snapshot shows: the record, its state and the principals behind its approvals. */
  ghost predicate Shows(s: Snapshot, m: Machine) {
    && s.ref == m.record.ref && s.release == m.record.release && s.currency == m.record.currency
    && s.phase == m.phase && s.amount == m.amount && s.bookMinor == m.record.bookMinor && s.bankMinor == m.record.bankMinor
    && s.sourceRefs == m.record.sourceRefs
    && |s.approvers| == (if Partner in m.approvals then 1 else 0) + (if Compliance in m.approvals then 1 else 0)
    && (forall role :: role in m.approvals && m.approvals[role] in m.config.actors ==>
          m.config.actors[m.approvals[role]].principal in s.approvers)
  }

  lemma SnapshotShows(m: Machine)
    ensures Shows(TakeSnapshot(m), m)
  {
    forall role | role in m.approvals && m.approvals[role] in m.config.actors
      ensures m.config.actors[m.approvals[role]].principal in TakeSnapshot(m).approvers
    {
      assert role == Partner || role == Compliance;
    }
  }

  /** A read is answered for anyone who may act; it counts, keeps what it showed, and changes
      nothing else. */
  lemma ReadExactly(m: Machine, e: Event)
    ensures Answers(m, e, READ) <==> Admissible(m, e, None) && e.command == Read
    ensures Answers(m, e, READ) ==>
      var m' := Handle(m, e).value.machine;
      && |m'.readbacks| == |m.readbacks| + 1 && m'.readbacks[..|m.readbacks|] == m.readbacks && Shows(m'.readbacks[|m.readbacks|], m)
      && m' == m.(readCount := m.readCount + 1, readbacks := m'.readbacks)
  {
    SnapshotShows(m);
    if e.Do? && e.command == Read {
      TurnedExactly(m, e);
      if Turned(m, e.command, e.actingAs, e.ref, e.race).Some? {
        TurnedWithoutEffect(m, e.command, e.actingAs, e.ref, e.race);
      }
    } else if e.Do? && Answers(m, e, READ) {
      DeniedOrPerformed(m, e.command, e.actingAs, e.ref, e.race, Handle(m, e).value);
      OnlyReadReads(m, e.command, e.actingAs.value, Handle(m, e).value);
    }
  }

  lemma OnlyReadReads(m: Machine, command: Command, name: string, o: Outcome)
    requires Performed(m, command, name, o)
    ensures o.code == READ ==> command.Read?
    ensures o.code == EDITED ==> command.Edit?
    ensures o.code == RECONCILED ==> command.Reconcile?
    ensures o.code == APPROVED || o.code == APPROVAL_RECORDED ==> command.Approve?
    ensures o.code == PREPARED ==> command.Prepare?
  {
    if command.Reconcile? {
      TotalFaults(m.record.bookMinor);
      TotalFaults(m.record.bankMinor);
    }
  }

  // ------------------------------------------------------------------------
  // Editing
  // ------------------------------------------------------------------------

  ghost predicate Took<T>(now: T, change: Option<T>, before: T) {
    now == if change == None then before else change.value
  }

  /** What an edit leaves: the next revision, by the editor, with the changed fields and the
      sources that are current now; the review starts over. */
  ghost predicate Edited(m: Machine, m': Machine, editor: Actor, ch: Changes) {
    && m.record.ref.Ref? && m'.record.ref == Ref(m.record.ref.prefix, m.record.ref.revision + 1)
    && m'.record.author == editor.principal && m'.record.sourceRefs == m.config.sourceCurrent
    && Took(m'.record.release, ch.release, m.record.release) && Took(m'.record.currency, ch.currency, m.record.currency)
    && Took(m'.record.bookCurrency, ch.bookCurrency, m.record.bookCurrency)
    && Took(m'.record.bankCurrency, ch.bankCurrency, m.record.bankCurrency)
    && Took(m'.record.bookMinor, ch.bookMinor, m.record.bookMinor) && Took(m'.record.bankMinor, ch.bankMinor, m.record.bankMinor)
    && m'.phase == Draft && m'.approvals == map[] && m'.binding == None && m'.amount == None && m'.delta == None && m'.plans == 0
    && |m'.history| == |m.history| + 1 && m'.history[..|m.history|] == m.history && Shows(m'.history[|m.history|], m)
    && m'.config == m.config && m'.readCount == m.readCount && m'.readbacks == m.readbacks && m'.codes == m.codes
  }

  /** An edit succeeds exactly for an analyst who may act and names only editable fields. */
  lemma EditExactly(m: Machine, e: Event)
    ensures Answers(m, e, EDITED) <==>
      Admissible(m, e, Some(AnalystRole)) && e.command.Edit? && e.command.changes.Some? && !e.command.changes.value.other
      && m.record.ref.Ref?
    ensures Answers(m, e, EDITED) ==>
      Edited(m, Handle(m, e).value.machine, m.config.actors[e.actingAs.value], e.command.changes.value)
  {
    SnapshotShows(m);
    if e.Do? && e.command.Edit? {
      TurnedExactly(m, e);
      if Turned(m, e.command, e.actingAs, e.ref, e.race).Some? {
        TurnedWithoutEffect(m, e.command, e.actingAs, e.ref, e.race);
      }
    } else if e.Do? && Answers(m, e, EDITED) {
      DeniedOrPerformed(m, e.command, e.actingAs, e.ref, e.race, Handle(m, e).value);
      OnlyReadReads(m, e.command, e.actingAs.value, Handle(m, e).value);
    }
  }

  // ------------------------------------------------------------------------
  // Reconciling, approving, preparing
  // ------------------------------------------------------------------------

  ghost predicate WellFormed(lines: Lines) {
    && lines.Listed? && 1 <= |lines.values| <= 128
    && forall i :: 0 <= i < |lines.values| ==>
         lines.values[i].Text? && Decimal.IsCanonical(lines.values[i].s) && |lines.values[i].s| <= 38
  }

  /** The currencies a release has a threshold for, and the threshold. */
  ghost predicate Limit(release: Release, currency: Currency, limit: nat) {
    || (release == R1 && currency in {USD, INR} && limit == 100_000)
    || (release == R2 && currency in {USD, INR, EUR} && limit == 50_000)
  }

  ghost predicate SumsTo(lines: Lines, amount: nat) {
    WellFormed(lines) && ExactSum(lines.values) == amount && amount < TOO_LARGE
  }

  lemma TotalExactly(lines: Lines, amount: nat)
    ensures Total(lines) == Ok(amount) <==> SumsTo(lines, amount)
  {
    TotalIsTheSum(lines);
  }

  lemma ThresholdExactly(release: Release, currency: Currency, limit: nat)
    ensures Threshold(release, currency) == Some(limit) <==> Limit(release, currency, limit)
  {
  }

  ghost predicate SidesAgree(r: Record, amount: nat) {
    && (exists limit :: Limit(r.release, r.currency, limit))
    && r.currency == r.bookCurrency == r.bankCurrency
    && SumsTo(r.bookMinor, amount) && SumsTo(r.bankMinor, amount)
  }

  lemma ReconcileOutcome(m: Machine)
    ensures DoReconcile(m).code == RECONCILED <==> exists amount :: SidesAgree(m.record, amount)
    ensures forall amount :: SidesAgree(m.record, amount) ==>
      DoReconcile(m).machine == m.(phase := Reconciled, amount := Some(amount), delta := Some(0), binding :=
        Some(Binding(m.config.tenant, m.config.scope, m.record.ref, m.record.release, m.record.currency, amount, m.record.sourceRefs)))
  {
    var r := m.record;
    forall limit: nat ensures Threshold(r.release, r.currency) == Some(limit) <==> Limit(r.release, r.currency, limit) {
      ThresholdExactly(r.release, r.currency, limit);
    }
    forall amount: nat ensures (Total(r.bookMinor) == Ok(amount) <==> SumsTo(r.bookMinor, amount))
      ensures Total(r.bankMinor) == Ok(amount) <==> SumsTo(r.bankMinor, amount)
    {
      TotalExactly(r.bookMinor, amount);
      TotalExactly(r.bankMinor, amount);
    }
    TotalFaults(r.bookMinor);
    TotalFaults(r.bankMinor);
    if DoReconcile(m).code == RECONCILED {
      assert SidesAgree(r, Total(r.bookMinor).value);
    }
  }

  /** A reconciliation succeeds exactly for an analyst who may act, on a fresh draft in a
      currency its release supports, when both sides add up to the same amount; the draft is
      then bound to that amount. */
  lemma ReconcileExactly(m: Machine, e: Event)
    ensures Answers(m, e, RECONCILED) <==>
      Admissible(m, e, Some(AnalystRole)) && e.command == Reconcile && m.phase == Draft && Fresh(m)
      && exists amount :: SidesAgree(m.record, amount)
    ensures forall amount :: Answers(m, e, RECONCILED) && SidesAgree(m.record, amount) ==>
      Handle(m, e).value.machine == m.(phase := Reconciled, amount := Some(amount), delta := Some(0), binding :=
        Some(Binding(m.config.tenant, m.config.scope, m.record.ref, m.record.release, m.record.currency, amount, m.record.sourceRefs)))
  {
    if e.Do? && e.command == Reconcile {
      ReconcileReached(m, e);
      ReconcileOutcome(m);
    } else if e.Do? && Answers(m, e, RECONCILED) {
      DeniedOrPerformed(m, e.command, e.actingAs, e.ref, e.race, Handle(m, e).value);
      OnlyReadReads(m, e.command, e.actingAs.value, Handle(m, e).value);
    }
  }

  /** A reconciliation reaches the record, or is denied. */
  lemma ReconcileReached(m: Machine, e: Event)
    requires e.Do? && e.command == Reconcile
    ensures if Admissible(m, e, Some(AnalystRole)) && m.phase == Draft && Fresh(m) then Handle(m, e) == Some(DoReconcile(m))
            else !Answers(m, e, RECONCILED)
  {
    TurnedExactly(m, e);
    FreshExactly(m);
    if Turned(m, e.command, e.actingAs, e.ref, e.race).Some? {
      TurnedWithoutEffect(m, e.command, e.actingAs, e.ref, e.race);
    }
  }

  /** The role that an actor approves in: as partner, or else as compliance. */
  ghost predicate ApprovesAs(a: Actor, role: Role) {
    if PartnerRole in a.roles then role == Partner else ComplianceRole in a.roles && role == Compliance
  }

  /** Neither the author of the record nor behind the approval of the other role. */
  ghost predicate Independent(m: Machine, a: Actor, role: Role) {
    && a.principal != m.record.author
    && (forall other :: other in m.approvals && other != role ==>
          m.approvals[other] in m.config.actors ==> m.config.actors[m.approvals[other]].principal != a.principal)
  }

  ghost predicate MayApprove(m: Machine, e: Event, role: Role) {
    && Admissible(m, e, None) && e.command == Approve && (m.phase == Reconciled || m.phase == Approved) && Fresh(m)
    && ApprovesAs(m.config.actors[e.actingAs.value], role) && Independent(m, m.config.actors[e.actingAs.value], role)
  }

  lemma ApproveOutcome(m: Machine, name: string, actor: Actor)
    requires Sound(m) && m.phase != Draft && name in m.config.actors && m.config.actors[name] == actor
    ensures DoApprove(m, name, actor).Some?
    ensures var o := DoApprove(m, name, actor).value;
      && (o.code == APPROVED || o.code == APPROVAL_RECORDED <==> exists role :: ApprovesAs(actor, role) && Independent(m, actor, role))
      && (forall role :: ApprovesAs(actor, role) && Independent(m, actor, role) ==> ApprovalWritten(m, o, name, role))
  {
    ThresholdExactly(m.record.release, m.record.currency, Threshold(m.record.release, m.record.currency).value);
    var role := ApprovalRole(actor);
    assert role.Some? ==> ApprovesAs(actor, role.value);
    assert forall other :: other in m.approvals ==> m.approvals[other] in m.config.actors;
  }

  /** The approval is recorded; partner approval alone is enough below the threshold. */
  ghost predicate ApprovalWritten(m: Machine, o: Outcome, name: string, role: Role) {
    && o.machine == m.(approvals := m.approvals[role := name], phase := if o.code == APPROVED then Approved else Reconciled)
    && (o.code == APPROVED <==>
          && (role == Partner || Partner in m.approvals)
          && m.amount.Some? && (role == Compliance || Compliance in m.approvals
                || exists limit :: Limit(m.record.release, m.record.currency, limit) && m.amount.value < limit))
  }

  /** An approval succeeds exactly on a fresh reconciled record, by an actor who may act as
      partner or compliance and is neither its author nor the other approver. */
  lemma ApproveExactly(m: Machine, e: Event)
    requires Sound(m)
    ensures Answers(m, e, APPROVED) || Answers(m, e, APPROVAL_RECORDED) <==> exists role :: MayApprove(m, e, role)
    ensures forall role :: MayApprove(m, e, role) ==> ApprovalWritten(m, Handle(m, e).value, e.actingAs.value, role)
  {
    if e.Do? && e.command == Approve {
      TurnedExactly(m, e);
      FreshExactly(m);
      if Turned(m, e.command, e.actingAs, e.ref, e.race).Some? {
        TurnedWithoutEffect(m, e.command, e.actingAs, e.ref, e.race);
      } else {
        ApproveAdmitted(m, e);
      }
    } else if e.Do? && (Answers(m, e, APPROVED) || Answers(m, e, APPROVAL_RECORDED)) {
      DeniedOrPerformed(m, e.command, e.actingAs, e.ref, e.race, Handle(m, e).value);
      OnlyReadReads(m, e.command, e.actingAs.value, Handle(m, e).value);
    }
  }

  lemma ApproveAdmitted(m: Machine, e: Event)
    requires Sound(m) && e.Do? && e.command == Approve && Turned(m, e.command, e.actingAs, e.ref, e.race).None?
    ensures Answers(m, e, APPROVED) || Answers(m, e, APPROVAL_RECORDED) <==> exists role :: MayApprove(m, e, role)
    ensures forall role :: MayApprove(m, e, role) ==> ApprovalWritten(m, Handle(m, e).value, e.actingAs.value, role)
  {
    var name := e.actingAs.value;
    var actor := m.config.actors[name];
    TurnedExactly(m, e);
    FreshExactly(m);
    if PhaseAllows(m.phase, Approve) && Fresh(m) {
      assert Handle(m, e) == DoApprove(m, name, actor);
      ApproveOutcome(m, name, actor);
      assert forall role :: MayApprove(m, e, role) <==> ApprovesAs(actor, role) && Independent(m, actor, role);
    } else {
      NotAtTheRecord(m, name, actor);
    }
  }

  lemma NotAtTheRecord(m: Machine, name: string, actor: Actor)
    requires !PhaseAllows(m.phase, Approve) || m.record.release != m.config.activeRelease || FreshnessFault(m.config, m.record).Some?
    ensures OnRecord(m, Approve, name, actor).Some? && OnRecord(m, Approve, name, actor).value.code !in {APPROVED, APPROVAL_RECORDED}
  {
  }

  /** A preparation succeeds exactly for an analyst who may act, on a fresh approved record
      all of whose approvers may still act in the role they approved in. */
  lemma PrepareExactly(m: Machine, e: Event)
    ensures Answers(m, e, PREPARED) <==>
      && Admissible(m, e, Some(AnalystRole)) && e.command == Prepare && (m.phase == Approved || m.phase == Prepared) && Fresh(m)
      && (Partner in m.approvals ==> MayAct(m.config, m.approvals[Partner], Some(PartnerRole)))
      && (Compliance in m.approvals ==> MayAct(m.config, m.approvals[Compliance], Some(ComplianceRole)))
    ensures Answers(m, e, PREPARED) ==> Handle(m, e).value.machine == m.(phase := Prepared, plans := 1)
  {
    if e.Do? && e.command == Prepare {
      TurnedExactly(m, e);
      FreshExactly(m);
      AuthorizedExactly(m);
      if Turned(m, e.command, e.actingAs, e.ref, e.race).Some? {
        TurnedWithoutEffect(m, e.command, e.actingAs, e.ref, e.race);
      }
    } else if e.Do? && Answers(m, e, PREPARED) {
      DeniedOrPerformed(m, e.command, e.actingAs, e.ref, e.race, Handle(m, e).value);
      OnlyReadReads(m, e.command, e.actingAs.value, Handle(m, e).value);
    }
  }

  lemma AuthorizedExactly(m: Machine)
    ensures ApproversStillAuthorized(m) <==>
      && (Partner in m.approvals ==> MayAct(m.config, m.approvals[Partner], Some(PartnerRole)))
      && (Compliance in m.approvals ==> MayAct(m.config, m.approvals[Compliance], Some(ComplianceRole)))
  {
    forall role | role in m.approvals
      ensures Refusal(m.config, Some(m.approvals[role]), Some(NameOf(role))).None? <==>
        MayAct(m.config, m.approvals[role], Some(if role == Partner then PartnerRole else ComplianceRole))
    {
      RefusalExactly(m.config, Some(m.approvals[role]), Some(NameOf(role)));
    }
    if !ApproversStillAuthorized(m) {
      var role :| role in m.approvals && Refusal(m.config, Some(m.approvals[role]), Some(NameOf(role))).Some?;
      assert role == Partner || role == Compliance;
    }
  }

  // ------------------------------------------------------------------------
  // Maintenance
  // ------------------------------------------------------------------------

  /** A refresh replaces one source, counted from either end; an activation takes a known
      release; a revocation ends one actor's authority. Nothing else changes. */
  lemma MaintenanceWrites(m: Machine, e: Event)
    requires !e.Do? && Handle(m, e).Some?
    ensures var m' := Handle(m, e).value.machine; m' == m.(config := m'.config)
    ensures var c, c' := m.config, Handle(m, e).value.machine.config;
      match e
      case Restart => c' == c && Answers(m, e, RESTARTED)
      case Refresh(source, ref) =>
        && Answers(m, e, REFRESHED) && c' == c.(sourceCurrent := c'.sourceCurrent) && |c'.sourceCurrent| == |c.sourceCurrent|
        && (forall k :: 0 <= k < |c.sourceCurrent| ==>
              c'.sourceCurrent[k] == if k == source || k == source + |c.sourceCurrent| then ref else c.sourceCurrent[k])
      case Activate(release) =>
        if release in {R1, R2} then Answers(m, e, ACTIVATED) && c' == c.(activeRelease := release)
        else Answers(m, e, UNKNOWN_RELEASE) && c' == c
      case Revoke(name) =>
        && Answers(m, e, REVOKED) && name in c.actors && c' == c.(actors := c'.actors) && c'.actors.Keys == c.actors.Keys
        && !c'.actors[name].current && c'.actors[name].(current := c.actors[name].current) == c.actors[name]
        && (forall other :: other in c.actors && other != name ==> c'.actors[other] == c.actors[other])
  {
  }

  // ------------------------------------------------------------------------
  // Who wrote the record
  // ------------------------------------------------------------------------

  /** The last event that edited the record. */
  ghost predicate LastEdit(codes: seq<Code>, k: int) {
    && 0 <= k < |codes| && codes[k] == EDITED
    && forall later :: k < later < |codes| ==> codes[later] != EDITED
  }

  ghost predicate NeverEdited(codes: seq<Code>) {
    forall k :: 0 <= k < |codes| ==> codes[k] != EDITED
  }

  ghost predicate EditBy(c: Config, e: Event, principal: string) {
    e.Do? && e.command.Edit? && e.actingAs.Some? && e.actingAs.value in c.actors
    && c.actors[e.actingAs.value].principal == principal
  }

  ghost predicate AuthorKnown(c: Config, r: Record, events: seq<Event>, m: Machine) {
    && |m.codes| == |events|
    && m.config.actors.Keys == c.actors.Keys && SameActors(c, m.config)
    && (NeverEdited(m.codes) ==> m.record.author == r.author)
    && (forall k :: LastEdit(m.codes, k) ==> EditBy(c, events[k], m.record.author))
  }

  lemma OneEventOfAuthor(c: Config, r: Record, events: seq<Event>, m: Machine, e: Event)
    requires AuthorKnown(c, r, events, m) && Handle(m, e).Some?
    ensures var o := Handle(m, e).value; AuthorKnown(c, r, events + [e], o.machine.(codes := m.codes + [o.code]))
  {
    var o := Handle(m, e).value;
    EventKeepsActors(m, e);
    EditExactly(m, e);
    if o.code != EDITED {
      AuthorStays(m, e);
    }
    CodesOfOneMore(m.codes, o.code);
  }

  lemma EventKeepsActors(m: Machine, e: Event)
    requires Handle(m, e).Some?
    ensures var m' := Handle(m, e).value.machine; m'.config.actors.Keys == m.config.actors.Keys && SameActors(m.config, m'.config)
  {
    if e.Do? {
      var o := Handle(m, e).value;
      DeniedOrPerformed(m, e.command, e.actingAs, e.ref, e.race, o);
      if o.machine != m {
        PerformedKeepsConfig(m, e.command, e.actingAs.value, o);
      }
    } else {
      MaintenanceKeepsActors(m, e);
      MaintenanceWrites(m, e);
    }
  }

  lemma AuthorStays(m: Machine, e: Event)
    requires Handle(m, e).Some? && Handle(m, e).value.code != EDITED
    ensures Handle(m, e).value.machine.record == m.record
  {
    if e.Do? {
      var o := Handle(m, e).value;
      DeniedOrPerformed(m, e.command, e.actingAs, e.ref, e.race, o);
      if o.machine != m {
        PerformedHistory(m, e.command, e.actingAs.value, o);
      }
    } else {
      MaintenanceWrites(m, e);
    }
  }

  lemma CodesOfOneMore(codes: seq<Code>, code: Code)
    ensures code == EDITED ==> forall k :: LastEdit(codes + [code], k) <==> k == |codes|
    ensures code != EDITED ==> forall k :: LastEdit(codes + [code], k) <==> LastEdit(codes, k)
    ensures NeverEdited(codes + [code]) <==> NeverEdited(codes) && code != EDITED
  {
    var all := codes + [code];
    assert all[|codes|] == code;
    assert forall k :: 0 <= k < |codes| ==> all[k] == codes[k];
    forall k | LastEdit(all, k) && code != EDITED ensures LastEdit(codes, k) {
      assert forall later :: k < later < |codes| ==> all[later] == codes[later];
    }
  }

  /** In every replay the author of the record is the principal behind its last edit, or the
      first author if it was never edited. */
  lemma {:induction false} AuthorInEveryReplay(c: Config, r: Record, events: seq<Event>)
    requires Replay(Start(c, r), events).Some?
    ensures AuthorKnown(c, r, events, Replay(Start(c, r), events).value)
  {
    if events != [] {
      var n := |events| - 1;
      AuthorInEveryReplay(c, r, events[..n]);
      OneMoreEvent(c, r, events, Replay(Start(c, r), events[..n]).value, Replay(Start(c, r), events).value);
    }
  }

  lemma OneMoreEvent(c: Config, r: Record, events: seq<Event>, m: Machine, m': Machine)
    requires events != [] && AuthorKnown(c, r, events[..|events| - 1], m) && Step(m, events[|events| - 1]) == Some(m')
    ensures AuthorKnown(c, r, events, m')
  {
    var n := |events| - 1;
    OneEventOfAuthor(c, r, events[..n], m, events[n]);
    assert events[..n] + [events[n]] == events;
  }

  /** Nothing is approved by the one who wrote it: no approver of an approved or prepared
      record is the principal of its last edit, or its first author if it was never edited. */
  lemma NoApproverWroteIt(c: Config, r: Record, events: seq<Event>, role: Role)
    requires Replay(Start(c, r), events).Some?
    requires var m := Replay(Start(c, r), events).value; (m.phase == Approved || m.phase == Prepared) && role in m.approvals
    ensures var m := Replay(Start(c, r), events).value;
      && m.approvals[role] in c.actors
      && (forall k :: LastEdit(m.codes, k) ==> k < |events| && !EditBy(c, events[k], c.actors[m.approvals[role]].principal))
      && (NeverEdited(m.codes) ==> c.actors[m.approvals[role]].principal != r.author)
  {
    AuthorInEveryReplay(c, r, events);
    SoundInEveryReplay(c, r, events);
  }
}
