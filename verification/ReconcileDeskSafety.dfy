/** Exact quantities, separation of duties and currentness over every list of events. */
module ReconcileDeskSafety {
  import opened Basics
  import Decimal
  import opened ReconcileDesk

  // ------------------------------------------------------------------------
  // Sums are exact
  // ------------------------------------------------------------------------

  lemma {:induction false} DigitsBound(s: string)
    requires forall i :: 0 <= i < |s| ==> Decimal.IsDigit(s[i])
    ensures Decimal.Value(s) < Pow10(|s|)
  {
    if s != [] {
      DigitsBound(s[..|s| - 1]);
    }
  }

  lemma {:induction false} Pow10Grows(a: nat, b: nat)
    requires a <= b
    ensures Pow10(a) <= Pow10(b)
  {
    if a < b {
      Pow10Grows(a, b - 1);
    }
  }

  lemma {:induction false} Pow10Add(a: nat, b: nat)
    ensures Pow10(a + b) == Pow10(a) * Pow10(b)
  {
    if a > 0 {
      Pow10Add(a - 1, b);
      assert Pow10(a + b) == 10 * Pow10(a - 1 + b);
    }
  }

  /** The bounds written out are the powers of ten they stand for. */
  lemma BoundsArePowers()
    ensures Pow10(MAX_DIGITS) == TOO_LARGE && Pow10(PRECISION) == BEYOND_PRECISION
  {
    assert Pow10(10) == 10000000000;
    Pow10Add(10, 10);
    Pow10Add(20, 20);
    Pow10Add(40, 40);
    assert Pow10(18) == 1000000000000000000;
    Pow10Add(20, 18);
  }

  lemma QuantityBound(v: Value)
    requires IsQuantity(v)
    ensures AmountOf(v) < TOO_LARGE
  {
    BoundsArePowers();
    DigitsBound(v.s);
    Pow10Grows(|v.s|, MAX_DIGITS);
  }

  lemma OneMore(n: nat, unit: nat, sum: nat, amount: nat)
    requires sum <= n * unit && amount <= unit
    ensures sum + amount <= (n + 1) * unit
  {
  }

  lemma {:induction false} SumBound(values: seq<Value>)
    requires forall i :: 0 <= i < |values| ==> IsQuantity(values[i])
    ensures ExactSum(values) <= |values| * TOO_LARGE
  {
    if values != [] {
      var n := |values| - 1;
      var init, last := values[..n], values[n];
      SumBound(init);
      assert IsQuantity(last);
      QuantityBound(last);
      OneMore(n, TOO_LARGE, ExactSum(init), AmountOf(last));
    }
  }

  /** Up to 128 quantities of up to 38 digits add up at precision 80 without rounding. */
  lemma {:induction false} SumIsExact(values: seq<Value>)
    requires |values| <= MAX_LINES && forall i :: 0 <= i < |values| ==> IsQuantity(values[i])
    ensures RoundedSum(values) == ExactSum(values)
    decreases |values|
  {
    if values != [] {
      SumIsExact(values[..|values| - 1]);
      SumBound(values);
      FitsPrecision(|values|, ExactSum(values));
    }
  }

  lemma FitsPrecision(count: nat, sum: nat)
    requires count <= MAX_LINES && sum <= count * TOO_LARGE
    ensures sum < BEYOND_PRECISION && Rounded(sum) == sum
  {
    assert count * TOO_LARGE <= 128 * TOO_LARGE;
  }

  /** A total is the plain sum, refused exactly when a line is malformed or the sum has
      more than 38 digits. */
  lemma TotalIsTheSum(lines: Lines)
    ensures Total(lines) ==
      if !ValidLines(lines) then Err(INVALID_QUANTITY)
      else if ExactSum(lines.values) >= TOO_LARGE then Err(QUANTITY_OVERFLOW)
      else Ok(ExactSum(lines.values))
  {
    if ValidLines(lines) {
      SumIsExact(lines.values);
    }
  }

  method AddRounded(values: seq<Value>) returns (sum: nat)
    requires forall i :: 0 <= i < |values| ==> IsQuantity(values[i])
    ensures sum == RoundedSum(values)
  {
    sum := 0;
    for i := 0 to |values|
      invariant sum == RoundedSum(values[..i])
    {
      assert values[..i + 1][..i] == values[..i];
      sum := Rounded(sum + AmountOf(values[i]));
    }
    assert values[..|values|] == values;
  }

  method AddUp(lines: Lines) returns (r: Result<nat, Code>)
    ensures r == Total(lines)
    ensures r.Ok? ==> ValidLines(lines) && r.value == ExactSum(lines.values)
  {
    if !ValidLines(lines) { return Err(INVALID_QUANTITY); }
    var sum := AddRounded(lines.values);
    TotalIsTheSum(lines);
    if sum >= TOO_LARGE { return Err(QUANTITY_OVERFLOW); }
    r := Ok(sum);
  }

  // ------------------------------------------------------------------------
  // What holds in every state
  // ------------------------------------------------------------------------

  /** Beyond the draft, the record is matched, and bound as it stands now. */
  ghost predicate Matched(m: Machine) {
    && var r := m.record;
    && Threshold(r.release, r.currency).Some? && r.currency == r.bookCurrency == r.bankCurrency
    && m.amount.Some? && Total(r.bookMinor) == Ok(m.amount.value) && Total(r.bankMinor) == Ok(m.amount.value)
    && m.delta == Some(0)
    && m.binding == Some(Binding(m.config.tenant, m.config.scope, r.ref, r.release, r.currency, m.amount.value, r.sourceRefs))
  }

  /** Every recorded approval is by an actor with the role, who is not the author, and no
      two are by the same principal. */
  ghost predicate DutiesSeparated(m: Machine) {
    && (forall role :: role in m.approvals ==>
          && m.approvals[role] in m.config.actors
          && NameOf(role) in m.config.actors[m.approvals[role]].roles
          && Principal(m.config, m.approvals[role]) != m.record.author)
    && (Partner in m.approvals && Compliance in m.approvals ==>
          Principal(m.config, m.approvals[Partner]) != Principal(m.config, m.approvals[Compliance]))
  }

  ghost predicate Sound(m: Machine) {
    && DutiesSeparated(m)
    && (m.phase == Draft ==> m.approvals == map[] && m.binding == None)
    && (m.phase != Draft ==> Matched(m))
    && (m.phase == Approved || m.phase == Prepared ==>
          Sufficient(m.approvals, m.amount.value, Threshold(m.record.release, m.record.currency).value))
    && m.plans == (if m.phase == Prepared then 1 else 0)
    && m.readCount == |m.readbacks|
  }

  lemma EditKeepsSound(m: Machine, actor: Actor, edit: Option<Changes>)
    requires Sound(m) && DoEdit(m, actor, edit).Some?
    ensures Sound(DoEdit(m, actor, edit).value.machine)
  {
  }

  lemma ReconcileKeepsSound(m: Machine)
    requires Sound(m) && m.phase == Draft
    ensures Sound(DoReconcile(m).machine)
  {
  }

  lemma MatchedStays(m: Machine, m': Machine)
    requires Matched(m) && m' == m.(approvals := m'.approvals, phase := m'.phase, plans := m'.plans)
    ensures Matched(m')
  {
  }

  lemma ApprovalIsSeparate(m: Machine, name: string, actor: Actor, role: Role, approvals: map<Role, string>, phase: Phase)
    requires DutiesSeparated(m) && name in m.config.actors && m.config.actors[name] == actor
    requires ApprovalRole(actor) == Some(role) && actor.principal != m.record.author
    requires Separated(m.config, m.approvals, role, actor.principal) && approvals == m.approvals[role := name]
    ensures DutiesSeparated(m.(approvals := approvals, phase := phase))
  {
    if Partner in approvals && Compliance in approvals {
      var other := if role == Partner then Compliance else Partner;
      assert other in m.approvals;
    }
  }

  lemma ApproveKeepsSound(m: Machine, name: string, actor: Actor)
    requires Sound(m) && (m.phase == Reconciled || m.phase == Approved)
    requires name in m.config.actors && m.config.actors[name] == actor
    ensures DoApprove(m, name, actor).Some? && Sound(DoApprove(m, name, actor).value.machine)
  {
    var role := ApprovalRole(actor);
    var after := DoApprove(m, name, actor).value.machine;
    if after != m {
      MatchedStays(m, after);
      ApprovalIsSeparate(m, name, actor, role.value, after.approvals, after.phase);
    }
  }

  /** The codes of events that did something. */
  predicate Effective(code: Code) {
    code == RESTARTED || code == REFRESHED || code == ACTIVATED || code == REVOKED || code == READ || code == EDITED
    || code == APPROVAL_RECORDED || code == RECONCILED || code == APPROVED || code == PREPARED
  }

  /** An admitted command did its own step. */
  ghost predicate Performed(m: Machine, command: Command, name: string, o: Outcome) {
    && name in m.config.actors && m.config.actors[name].current
    && match command
       case Read => o == Outcome(m.(readCount := m.readCount + 1, readbacks := m.readbacks + [TakeSnapshot(m)]), READ)
       case Edit(changes) => DoEdit(m, m.config.actors[name], changes) == Some(o)
       case Reconcile => m.phase == Draft && o == DoReconcile(m)
       case Approve => (m.phase == Reconciled || m.phase == Approved) && DoApprove(m, name, m.config.actors[name]) == Some(o)
       case Prepare => (m.phase == Approved || m.phase == Prepared) && o == DoPrepare(m)
         && EvidenceOf(m.config, m.record) == Known && m.record.release == m.config.activeRelease
       case _ => false
  }

  /** A command is denied at the door, or performed. */
  lemma DeniedOrPerformed(m: Machine, command: Command, actingAs: Option<string>, ref: Option<Ref>, race: bool, o: Outcome)
    requires DoCommand(m, command, actingAs, ref, race) == Some(o)
    ensures (o.machine == m && !Effective(o.code)) || (actingAs.Some? && Performed(m, command, actingAs.value, o))
  {
    if Turned(m, command, actingAs, ref, race).Some? {
      TurnedWithoutEffect(m, command, actingAs, ref, race);
    } else {
      AdmittedDeniedOrPerformed(m, command, actingAs.value, o);
    }
  }

  lemma TurnedWithoutEffect(m: Machine, command: Command, actingAs: Option<string>, ref: Option<Ref>, race: bool)
    requires Turned(m, command, actingAs, ref, race).Some?
    ensures !Effective(Turned(m, command, actingAs, ref, race).value)
    ensures Turned(m, command, actingAs, ref, race).value != AMOUNT_MISMATCH
  {
    var role := if command.Edit? || command.Reconcile? || command.Prepare? then Some(AnalystRole) else None;
    if Refusal(m.config, actingAs, role).Some? {
      RefusalCodes(m.config, actingAs, role);
    }
  }

  lemma RefusalCodes(c: Config, name: Option<string>, role: Option<RoleName>)
    requires Refusal(c, name, role).Some?
    ensures !Effective(Refusal(c, name, role).value) && Refusal(c, name, role).value != AMOUNT_MISMATCH
  {
  }

  lemma AdmittedDeniedOrPerformed(m: Machine, command: Command, name: string, o: Outcome)
    requires name in m.config.actors && m.config.actors[name].current && !command.Execute? && !command.Unknown?
    requires Admitted(m, command, name) == Some(o)
    ensures (o.machine == m && !Effective(o.code)) || Performed(m, command, name, o)
    ensures o.code == AMOUNT_MISMATCH ==> Performed(m, command, name, o)
  {
    if command.Reconcile? || command.Approve? || command.Prepare? {
      RecordDeniedOrPerformed(m, command, name, m.config.actors[name], o);
    }
  }

  lemma RecordDeniedOrPerformed(m: Machine, command: Command, name: string, actor: Actor, o: Outcome)
    requires name in m.config.actors && m.config.actors[name] == actor && actor.current
    requires command.Reconcile? || command.Approve? || command.Prepare?
    requires OnRecord(m, command, name, actor) == Some(o)
    ensures (o.machine == m && !Effective(o.code)) || Performed(m, command, name, o)
    ensures o.code == AMOUNT_MISMATCH ==> Performed(m, command, name, o)
  {
    if PhaseAllows(m.phase, command) && m.record.release == m.config.activeRelease && FreshnessFault(m.config, m.record).None? {
      assert Performed(m, command, name, o);
    }
  }

  /** A command leaves the configuration alone. */
  lemma PerformedKeepsConfig(m: Machine, command: Command, name: string, o: Outcome)
    requires Performed(m, command, name, o)
    ensures o.machine.config == m.config
  {
  }

  lemma PerformedKeepsSound(m: Machine, command: Command, name: string, o: Outcome)
    requires Sound(m) && Performed(m, command, name, o)
    ensures Sound(o.machine)
  {
    match command
    case Edit(changes) => EditKeepsSound(m, m.config.actors[name], changes);
    case Reconcile => ReconcileKeepsSound(m);
    case Approve => ApproveKeepsSound(m, name, m.config.actors[name]);
    case Prepare =>
      if o.machine != m {
        MatchedStays(m, o.machine);
      }
    case _ =>
  }

  lemma MaintenanceKeepsSound(m: Machine, e: Event)
    requires Sound(m) && !e.Do? && Handle(m, e).Some?
    ensures Sound(Handle(m, e).value.machine)
  {
    MaintenanceKeepsActors(m, e);
    ConfigKeepsSound(m, Handle(m, e).value.machine.config);
  }

  ghost predicate SameActors(a: Config, b: Config) {
    && a.tenant == b.tenant && a.scope == b.scope
    && forall n :: n in a.actors ==>
         n in b.actors && b.actors[n].roles == a.actors[n].roles && b.actors[n].principal == a.actors[n].principal
  }

  lemma MaintenanceKeepsActors(m: Machine, e: Event)
    requires !e.Do? && Handle(m, e).Some?
    ensures var m' := Handle(m, e).value.machine; m' == m.(config := m'.config) && SameActors(m.config, m'.config)
  {
  }

  /** Soundness asks of the configuration who the actors are, not what is current. */
  lemma ConfigKeepsSound(m: Machine, c: Config)
    requires Sound(m) && SameActors(m.config, c)
    ensures Sound(m.(config := c))
  {
    assert forall role :: role in m.approvals ==> Principal(c, m.approvals[role]) == Principal(m.config, m.approvals[role]);
  }

  lemma HandleKeepsSound(m: Machine, e: Event)
    requires Sound(m) && Handle(m, e).Some?
    ensures Sound(Handle(m, e).value.machine)
  {
    if e.Do? {
      var o := Handle(m, e).value;
      DeniedOrPerformed(m, e.command, e.actingAs, e.ref, e.race, o);
      if o.machine != m {
        PerformedKeepsSound(m, e.command, e.actingAs.value, o);
      }
    } else {
      MaintenanceKeepsSound(m, e);
    }
  }

  /** Over every list of events that runs through: an approved or prepared record has equal
      totals on both sides, a partner approval, a compliance approval from the threshold up,
      approvers that are neither the author nor each other, and a binding to the record as
      it stands; a draft has neither approvals nor binding. */
  lemma {:induction false} SoundInEveryReplay(c: Config, r: Record, events: seq<Event>)
    ensures Replay(Start(c, r), events).Some? ==> Sound(Replay(Start(c, r), events).value)
  {
    if events != [] {
      var init, last := events[..|events| - 1], events[|events| - 1];
      SoundInEveryReplay(c, r, init);
      if Replay(Start(c, r), init).Some? {
        var before := Replay(Start(c, r), init).value;
        if Handle(before, last).Some? {
          HandleKeepsSound(before, last);
        }
      }
    }
  }

  /** In an approved or prepared record the two sides add up to the same exact amount, and
      the people are at least two: the author and as many approvers as the amount asks for. */
  lemma ApprovedMeansMatchedAndSeparated(c: Config, r: Record, events: seq<Event>)
    requires Replay(Start(c, r), events).Some?
    requires var p := Replay(Start(c, r), events).value.phase; p == Approved || p == Prepared
    ensures var m := Replay(Start(c, r), events).value; var people := Approvers(m.config, m.approvals);
      && m.amount.Some? && Threshold(m.record.release, m.record.currency).Some?
      && ValidLines(m.record.bookMinor) && ValidLines(m.record.bankMinor)
      && ExactSum(m.record.bookMinor.values) == ExactSum(m.record.bankMinor.values) == m.amount.value
      && m.record.author !in people && (forall p :: p in people ==> people[p] == 1)
      && 1 <= |people|
      && (m.amount.value >= Threshold(m.record.release, m.record.currency).value ==> |people| == 2)
  {
    var m := Replay(Start(c, r), events).value;
    SoundInEveryReplay(c, r, events);
    TotalIsTheSum(m.record.bookMinor);
    TotalIsTheSum(m.record.bankMinor);
  }

  // ------------------------------------------------------------------------
  // Denials
  // ------------------------------------------------------------------------

  ghost predicate OnlyAmounts(m: Machine, after: Outcome) {
    && after.machine == m.(amount := after.machine.amount, delta := after.machine.delta)
    && (after.code != AMOUNT_MISMATCH ==> after.machine == m)
    && (after.code == AMOUNT_MISMATCH ==> after.machine.delta.Some? && after.machine.delta != Some(0))
  }

  /** A denied event changes nothing, except that a mismatch leaves the amounts it found. */
  lemma DeniedChangesNothing(m: Machine, e: Event)
    requires Handle(m, e).Some? && !Effective(Handle(m, e).value.code)
    ensures OnlyAmounts(m, Handle(m, e).value)
  {
    if e.Do? {
      var o := Handle(m, e).value;
      DeniedOrPerformed(m, e.command, e.actingAs, e.ref, e.race, o);
      if o.machine != m {
        DenialsOfPerformed(m, e.command, e.actingAs.value, o);
      } else if o.code == AMOUNT_MISMATCH {
        MismatchIsReconcile(m, e.command, e.actingAs, e.ref, e.race, o);
      }
    }
  }

  lemma MismatchIsReconcile(m: Machine, command: Command, actingAs: Option<string>, ref: Option<Ref>, race: bool, o: Outcome)
    requires DoCommand(m, command, actingAs, ref, race) == Some(o) && o.code == AMOUNT_MISMATCH
    ensures o.machine.delta.Some? && o.machine.delta != Some(0)
  {
    if Turned(m, command, actingAs, ref, race).Some? {
      TurnedWithoutEffect(m, command, actingAs, ref, race);
    } else {
      AdmittedDeniedOrPerformed(m, command, actingAs.value, o);
    }
  }

  lemma DenialsOfPerformed(m: Machine, command: Command, name: string, o: Outcome)
    requires Performed(m, command, name, o) && !Effective(o.code)
    ensures OnlyAmounts(m, o)
  {
    match command
    case Edit(changes) => EditDenied(m, m.config.actors[name], changes);
    case Reconcile => ReconcileDenied(m);
    case Approve => ApproveDenied(m, name, m.config.actors[name]);
    case _ =>
  }

  lemma EditDenied(m: Machine, actor: Actor, edit: Option<Changes>)
    requires DoEdit(m, actor, edit).Some? && !Effective(DoEdit(m, actor, edit).value.code)
    ensures OnlyAmounts(m, DoEdit(m, actor, edit).value)
  {
  }

  lemma ReconcileDenied(m: Machine)
    requires !Effective(DoReconcile(m).code)
    ensures OnlyAmounts(m, DoReconcile(m))
  {
    var r := m.record;
    TotalFaults(r.bookMinor);
    TotalFaults(r.bankMinor);
    if Threshold(r.release, r.currency).Some? && r.currency == r.bookCurrency == r.bankCurrency {
      ComparisonDenied(m, Total(r.bookMinor), Total(r.bankMinor));
    }
  }

  lemma TotalFaults(lines: Lines)
    ensures Total(lines).Err? ==> Total(lines).error in {INVALID_QUANTITY, QUANTITY_OVERFLOW}
  {
  }

  lemma ComparisonDenied(m: Machine, book: Result<nat, Code>, bank: Result<nat, Code>)
    requires book.Err? ==> book.error != AMOUNT_MISMATCH
    requires bank.Err? ==> bank.error != AMOUNT_MISMATCH
    requires !Effective(Compared(m, book, bank).code)
    ensures OnlyAmounts(m, Compared(m, book, bank))
  {
  }

  lemma ApproveDenied(m: Machine, name: string, actor: Actor)
    requires DoApprove(m, name, actor).Some? && !Effective(DoApprove(m, name, actor).value.code)
    ensures OnlyAmounts(m, DoApprove(m, name, actor).value)
  {
  }

  /** The only ways into the state PREPARED, and out of it. */
  lemma PreparationIsEarned(m: Machine, e: Event)
    requires Sound(m) && Handle(m, e).Some? && Handle(m, e).value.machine.phase == Prepared
    ensures m.phase == Prepared || (Handle(m, e).value.code == PREPARED && m.phase == Approved
      && EvidenceOf(m.config, m.record) == Known && m.record.release == m.config.activeRelease && ApproversStillAuthorized(m))
  {
    if m.phase != Prepared {
      var o := Handle(m, e).value;
      if e.Do? {
        DeniedOrPerformed(m, e.command, e.actingAs, e.ref, e.race, o);
        OnlyPrepareEntersPrepared(m, e.command, e.actingAs.value, o);
      } else {
        MaintenanceKeepsActors(m, e);
      }
    }
  }

  lemma OnlyPrepareEntersPrepared(m: Machine, command: Command, name: string, o: Outcome)
    requires Performed(m, command, name, o) && o.machine.phase == Prepared && m.phase != Prepared
    ensures command.Prepare? && o.code == PREPARED && m.phase == Approved && ApproversStillAuthorized(m)
    ensures EvidenceOf(m.config, m.record) == Known && m.record.release == m.config.activeRelease
  {
  }

  // ------------------------------------------------------------------------
  // Revocation
  // ------------------------------------------------------------------------

  predicate Revoked(m: Machine, name: string) {
    name in m.config.actors && !m.config.actors[name].current
  }

  lemma {:induction false} RevokedStaysRevoked(m: Machine, events: seq<Event>, name: string)
    requires Revoked(m, name) && Replay(m, events).Some?
    ensures Revoked(Replay(m, events).value, name)
  {
    if events != [] {
      var before := events[..|events| - 1];
      RevokedStaysRevoked(m, before, name);
      NoEventReinstates(Replay(m, before).value, events[|events| - 1], name);
    }
  }

  lemma NoEventReinstates(m: Machine, e: Event, name: string)
    requires Revoked(m, name) && Handle(m, e).Some?
    ensures Revoked(Handle(m, e).value.machine, name)
  {
    if e.Do? {
      var o := Handle(m, e).value;
      DeniedOrPerformed(m, e.command, e.actingAs, e.ref, e.race, o);
      if o.machine != m {
        PerformedKeepsConfig(m, e.command, e.actingAs.value, o);
      }
    }
  }

  /** Once an approver's authority is revoked, nothing that follows lets a preparation
      succeed while it rests on that approval, and the revoked actor can do nothing at all. */
  lemma RevokedApproverBlocksPreparation(m: Machine, events: seq<Event>, name: string, e: Event)
    requires Revoked(m, name) && Replay(m, events).Some?
    requires var now := Replay(m, events).value;
      && e.Do? && Handle(now, e).Some?
      && ((exists role :: role in now.approvals && now.approvals[role] == name) || e.actingAs == Some(name))
    ensures var now := Replay(m, events).value; var after := Handle(now, e).value;
      && after.code != PREPARED
      && (e.actingAs == Some(name) ==> !Effective(after.code) && after.machine == now)
  {
    RevokedStaysRevoked(m, events, name);
    RevokedBlocksNow(Replay(m, events).value, name, e);
  }

  lemma RevokedBlocksNow(now: Machine, name: string, e: Event)
    requires Revoked(now, name) && e.Do? && Handle(now, e).Some?
    requires (exists role :: role in now.approvals && now.approvals[role] == name) || e.actingAs == Some(name)
    ensures var after := Handle(now, e).value;
      && after.code != PREPARED
      && (e.actingAs == Some(name) ==> !Effective(after.code) && after.machine == now)
  {
    var o := Handle(now, e).value;
    DeniedOrPerformed(now, e.command, e.actingAs, e.ref, e.race, o);
    if o.code == PREPARED {
      PreparedHasAuthority(now, e.command, e.actingAs.value, o);
    }
  }

  lemma PreparedHasAuthority(m: Machine, command: Command, name: string, o: Outcome)
    requires Performed(m, command, name, o) && o.code == PREPARED
    ensures command.Prepare? && ApproversStillAuthorized(m)
  {
  }

  // ------------------------------------------------------------------------
  // The record's history
  // ------------------------------------------------------------------------

  function Edits(codes: seq<Code>): nat {
    if codes == [] then 0 else Edits(codes[..|codes| - 1]) + if codes[|codes| - 1] == EDITED then 1 else 0
  }

  function Reads(codes: seq<Code>): nat {
    if codes == [] then 0 else Reads(codes[..|codes| - 1]) + if codes[|codes| - 1] == READ then 1 else 0
  }

  lemma CodesSnoc(codes: seq<Code>, code: Code)
    ensures Edits(codes + [code]) == Edits(codes) + if code == EDITED then 1 else 0
    ensures Reads(codes + [code]) == Reads(codes) + if code == READ then 1 else 0
  {
    assert (codes + [code])[..|codes|] == codes;
  }

  ghost predicate HistoryListed(m: Machine, first: Ref, events: nat)
    requires first.Ref?
  {
    && |m.codes| == events
    && |m.history| == Edits(m.codes) && m.readCount == Reads(m.codes)
    && m.record.ref == Ref(first.prefix, first.revision + |m.history|)
    && (forall k :: 0 <= k < |m.history| ==> m.history[k].ref == Ref(first.prefix, first.revision + k))
  }

  lemma ListedStep(m: Machine, o: Outcome, first: Ref, events: nat)
    requires first.Ref? && HistoryListed(m, first, events) && HistoryStep(m, o)
    ensures HistoryListed(o.machine.(codes := m.codes + [o.code]), first, events + 1)
  {
    CodesSnoc(m.codes, o.code);
  }

  /** One code per event; every edit adds one revision and keeps one snapshot, so the
      history lists the record's revisions from the first to the last but one. */
  lemma {:induction false} HistoryCountsEdits(c: Config, r: Record, events: seq<Event>)
    requires r.ref.Ref? && Replay(Start(c, r), events).Some?
    ensures HistoryListed(Replay(Start(c, r), events).value, r.ref, |events|)
  {
    if events != [] {
      var init, last := events[..|events| - 1], events[|events| - 1];
      HistoryCountsEdits(c, r, init);
      var before := Replay(Start(c, r), init).value;
      OneEventOfHistory(before, last);
      ListedStep(before, Handle(before, last).value, r.ref, |init|);
    }
  }

  ghost predicate HistoryStep(m: Machine, after: Outcome) {
    && after.machine.codes == m.codes
    && (after.code == EDITED ==> after.machine.history == m.history + [TakeSnapshot(m)])
    && (after.code == EDITED ==> m.record.ref.Ref? && after.machine.record.ref == Ref(m.record.ref.prefix, m.record.ref.revision + 1))
    && (after.code != EDITED ==> after.machine.history == m.history && after.machine.record == m.record)
    && after.machine.readCount == m.readCount + if after.code == READ then 1 else 0
  }

  lemma PerformedHistory(m: Machine, command: Command, name: string, o: Outcome)
    requires Performed(m, command, name, o)
    ensures HistoryStep(m, o)
  {
    match command
    case Edit(changes) => EditHistory(m, m.config.actors[name], changes);
    case Reconcile => ReconcileHistory(m);
    case Approve => ApproveHistory(m, name, m.config.actors[name]);
    case _ =>
  }

  lemma ApproveHistory(m: Machine, name: string, actor: Actor)
    requires DoApprove(m, name, actor).Some?
    ensures HistoryStep(m, DoApprove(m, name, actor).value)
  {
  }

  lemma EditHistory(m: Machine, actor: Actor, edit: Option<Changes>)
    requires DoEdit(m, actor, edit).Some?
    ensures HistoryStep(m, DoEdit(m, actor, edit).value)
  {
  }

  lemma ReconcileHistory(m: Machine)
    ensures HistoryStep(m, DoReconcile(m))
  {
    var r := m.record;
    TotalFaults(r.bookMinor);
    TotalFaults(r.bankMinor);
    if Threshold(r.release, r.currency).Some? && r.currency == r.bookCurrency == r.bankCurrency {
      ComparisonHistory(m, Total(r.bookMinor), Total(r.bankMinor));
    }
  }

  lemma ComparisonHistory(m: Machine, book: Result<nat, Code>, bank: Result<nat, Code>)
    requires book.Err? ==> book.error !in {EDITED, READ}
    requires bank.Err? ==> bank.error !in {EDITED, READ}
    ensures HistoryStep(m, Compared(m, book, bank))
  {
  }

  lemma OneEventOfHistory(m: Machine, e: Event)
    requires m.record.ref.Ref? && Handle(m, e).Some?
    ensures HistoryStep(m, Handle(m, e).value)
  {
    if e.Do? {
      var o := Handle(m, e).value;
      DeniedOrPerformed(m, e.command, e.actingAs, e.ref, e.race, o);
      if Effective(o.code) || o.machine != m {
        PerformedHistory(m, e.command, e.actingAs.value, o);
      }
    }
  }
}
