/** The reconcile, approve and prepare machine of scope-x3/acceptance/reference.py: a
    record is matched against its bank side, approved under separation of duties, and
    prepared, one event after another. */
module ReconcileDesk {
  import opened Basics
  import Decimal

  // ------------------------------------------------------------------------
  // Quantities
  // ------------------------------------------------------------------------

  datatype Value = Text(s: string) | NotText
  datatype Lines = NotAList | Listed(values: seq<Value>)

  const MAX_DIGITS := 38
  const MAX_LINES := 128
  const PRECISION := 80
  const TOO_LARGE := 100000000000000000000000000000000000000
  const BEYOND_PRECISION := 100000000000000000000000000000000000000000000000000000000000000000000000000000000

  function Pow10(n: nat): (p: nat)
    ensures p >= 1
  {
    if n == 0 then 1 else 10 * Pow10(n - 1)
  }

  /** An unsigned integer without leading zeros, of at most 38 digits. */
  predicate IsQuantity(v: Value) {
    v.Text? && Decimal.IsCanonical(v.s) && |v.s| <= MAX_DIGITS
  }

  function AmountOf(v: Value): nat
    requires IsQuantity(v)
  {
    Decimal.Value(v.s)
  }

  /** Digits beyond the context's precision. */
  function Excess(n: nat): nat {
    if n < BEYOND_PRECISION then 0 else 1 + Excess(n / 10)
  }

  /** Rounding to the context's precision, half to even. */
  function Rounded(n: nat): nat {
    if n < BEYOND_PRECISION then n
    else
      var unit := Pow10(Excess(n));
      var q, rest := n / unit, n % unit;
      if 2 * rest > unit || (2 * rest == unit && q % 2 == 1) then (q + 1) * unit else q * unit
  }

  /** Adding up in the context: every partial sum is rounded. */
  function RoundedSum(values: seq<Value>): nat
    requires forall i :: 0 <= i < |values| ==> IsQuantity(values[i])
  {
    if values == [] then 0
    else
      assert IsQuantity(values[|values| - 1]);
      Rounded(RoundedSum(values[..|values| - 1]) + AmountOf(values[|values| - 1]))
  }

  /** The sum in plain arithmetic. */
  function ExactSum(values: seq<Value>): nat
    requires forall i :: 0 <= i < |values| ==> IsQuantity(values[i])
  {
    if values == [] then 0
    else
      assert IsQuantity(values[|values| - 1]);
      ExactSum(values[..|values| - 1]) + AmountOf(values[|values| - 1])
  }

  predicate ValidLines(lines: Lines) {
    && lines.Listed? && 1 <= |lines.values| <= MAX_LINES
    && forall i :: 0 <= i < |lines.values| ==> IsQuantity(lines.values[i])
  }

  function Total(lines: Lines): Result<nat, Code> {
    if !ValidLines(lines) then Err(INVALID_QUANTITY)
    else if RoundedSum(lines.values) >= TOO_LARGE then Err(QUANTITY_OVERFLOW)
    else Ok(RoundedSum(lines.values))
  }

  // ------------------------------------------------------------------------
  // The machine
  // ------------------------------------------------------------------------

  datatype Code =
    | RESTARTED | REFRESHED | ACTIVATED | REVOKED | READ | EDITED | APPROVAL_RECORDED
    | RECONCILED | APPROVED | PREPARED
    | UNKNOWN_RELEASE | EXECUTION_OUT_OF_SCOPE | UNKNOWN_COMMAND
    | IDENTITY_DENIED | TENANT_DENIED | SCOPE_DENIED | AUTHORITY_REVOKED | ROLE_DENIED
    | RECORD_REF_MISMATCH | COMMIT_CONFLICT | INVALID_EDIT | INVALID_STATE | RELEASE_CHANGED
    | SOURCE_STALE | EVIDENCE_CONFLICTING | EVIDENCE_UNKNOWN
    | UNSUPPORTED_CURRENCY | CURRENCY_MISMATCH | INVALID_QUANTITY | QUANTITY_OVERFLOW | AMOUNT_MISMATCH
    | SELF_APPROVAL_DENIED | PRINCIPAL_SEPARATION_DENIED | APPROVER_AUTHORITY_REVOKED

  // Codes that the rules mention by name; any other text is possible.
  datatype Currency = USD | INR | EUR | OtherCurrency(text: string)
  datatype Release = R1 | R2 | OtherRelease(text: string)
  datatype RoleName = AnalystRole | PartnerRole | ComplianceRole | OtherRole(text: string)
  datatype Status = IsKnown | IsStale | IsConflicting | OtherStatus(text: string)

  datatype Actor = Actor(principal: string, tenant: string, scope: string, roles: set<RoleName>, current: bool)

  /** A reference is a prefix and a revision number; anything else cannot be edited. */
  datatype Ref = Ref(prefix: string, revision: int) | Odd(text: string)

  datatype Config = Config(tenant: string, scope: string, actors: map<string, Actor>, sourceCurrent: seq<string>,
                           sourceStatus: seq<Status>, activeRelease: Release)

  datatype Record = Record(ref: Ref, release: Release, currency: Currency, bookCurrency: Currency, bankCurrency: Currency,
                           bookMinor: Lines, bankMinor: Lines, author: string, sourceRefs: seq<string>)

  datatype Phase = Draft | Reconciled | Approved | Prepared
  datatype Role = Partner | Compliance

  datatype Binding = Binding(tenant: string, scope: string, ref: Ref, release: Release, currency: Currency, amount: nat,
                             sourceRefs: seq<string>)

  datatype Snapshot = Snapshot(ref: Ref, release: Release, currency: Currency, phase: Phase, amount: Option<nat>,
                               bookMinor: Lines, bankMinor: Lines, approvers: multiset<string>, sourceRefs: seq<string>)

  datatype Machine = Machine(config: Config, record: Record, phase: Phase, approvals: map<Role, string>,
                             binding: Option<Binding>, amount: Option<nat>, delta: Option<int>, plans: nat, readCount: nat,
                             history: seq<Snapshot>, readbacks: seq<Snapshot>, codes: seq<Code>)

  /** The fields an edit may set; `other` when it names one it may not. */
  datatype Changes = Changes(release: Option<Release>, currency: Option<Currency>, bookCurrency: Option<Currency>,
                             bankCurrency: Option<Currency>, bookMinor: Option<Lines>, bankMinor: Option<Lines>, other: bool)

  datatype Command = Execute | Unknown | Read | Edit(changes: Option<Changes>) | Reconcile | Approve | Prepare

  datatype Event =
    | Restart
    | Refresh(source: int, sourceRef: string)
    | Activate(release: Release)
    | Revoke(actor: string)
    | Do(command: Command, actingAs: Option<string>, ref: Option<Ref>, race: bool)

  /** The approval threshold a release sets for a currency. */
  function Threshold(release: Release, currency: Currency): Option<nat> {
    if release == R1 && (currency == USD || currency == INR) then Some(100000)
    else if release == R2 && (currency == USD || currency == INR || currency == EUR) then Some(50000)
    else None
  }

  predicate KnownRelease(release: Release) {
    release == R1 || release == R2
  }

  function NameOf(role: Role): RoleName {
    if role == Partner then PartnerRole else ComplianceRole
  }

  /** None when the named actor may act in the role (in any role, when none is asked for). */
  function Refusal(c: Config, name: Option<string>, role: Option<RoleName>): Option<Code> {
    if name.None? || name.value !in c.actors then Some(IDENTITY_DENIED)
    else
      var a := c.actors[name.value];
      if a.tenant != c.tenant then Some(TENANT_DENIED)
      else if a.scope != c.scope then Some(SCOPE_DENIED)
      else if !a.current then Some(AUTHORITY_REVOKED)
      else if (if role.Some? then role.value !in a.roles else a.roles == {}) then Some(ROLE_DENIED)
      else None
  }

  datatype Evidence = Stale | Conflicting | Known | Unsure

  function EvidenceOf(c: Config, r: Record): Evidence {
    if r.sourceRefs != c.sourceCurrent || IsStale in c.sourceStatus then Stale
    else if IsConflicting in c.sourceStatus then Conflicting
    else if c.sourceStatus == [IsKnown, IsKnown] then Known
    else Unsure
  }

  function FreshnessFault(c: Config, r: Record): Option<Code> {
    match EvidenceOf(c, r)
    case Known => None
    case Stale => Some(SOURCE_STALE)
    case Conflicting => Some(EVIDENCE_CONFLICTING)
    case Unsure => Some(EVIDENCE_UNKNOWN)
  }

  function Principal(c: Config, name: string): string {
    if name in c.actors then c.actors[name].principal else ""
  }

  /** The principals behind the recorded approvals. */
  function Approvers(c: Config, approvals: map<Role, string>): multiset<string> {
    (if Partner in approvals then multiset{Principal(c, approvals[Partner])} else multiset{})
    + (if Compliance in approvals then multiset{Principal(c, approvals[Compliance])} else multiset{})
  }

  function TakeSnapshot(m: Machine): Snapshot {
    Snapshot(m.record.ref, m.record.release, m.record.currency, m.phase, m.amount, m.record.bookMinor, m.record.bankMinor,
             Approvers(m.config, m.approvals), m.record.sourceRefs)
  }

  function Or<T>(change: Option<T>, old_: T): T {
    if change.Some? then change.value else old_
  }

  /** The machine after an event, and whether the event was denied. None where the
      program stops with an error of the language: an unknown actor or source in a
      maintenance event, an edit without a record or of an odd reference. */
  datatype Outcome = Outcome(machine: Machine, code: Code)

  function Deny(m: Machine, code: Code): Option<Outcome> {
    Some(Outcome(m, code))
  }

  function SourceIndex(source: int, count: nat): (r: Option<int>)
    ensures r.Some? ==> 0 <= r.value < count
  {
    if 0 <= source < count then Some(source)
    else if 0 <= source + count < count then Some(source + count) else None
  }

  function DoEdit(m: Machine, actor: Actor, edit: Option<Changes>): Option<Outcome> {
    if edit.None? then None
    else if edit.value.other then Deny(m, INVALID_EDIT)
    else if m.record.ref.Odd? then None
    else
      var r, ch := m.record, edit.value;
      Some(Outcome(m.(
        record := Record(Ref(r.ref.prefix, r.ref.revision + 1), Or(ch.release, r.release), Or(ch.currency, r.currency),
                         Or(ch.bookCurrency, r.bookCurrency), Or(ch.bankCurrency, r.bankCurrency),
                         Or(ch.bookMinor, r.bookMinor), Or(ch.bankMinor, r.bankMinor), actor.principal, m.config.sourceCurrent),
        history := m.history + [TakeSnapshot(m)],
        phase := Draft, approvals := map[], binding := None, amount := None, delta := None, plans := 0), EDITED))
  }

  function DoReconcile(m: Machine): Outcome {
    var r := m.record;
    if Threshold(r.release, r.currency).None? then Outcome(m, UNSUPPORTED_CURRENCY)
    else if !(r.currency == r.bookCurrency == r.bankCurrency) then Outcome(m, CURRENCY_MISMATCH)
    else Compared(m, Total(r.bookMinor), Total(r.bankMinor))
  }

  function Compared(m: Machine, book: Result<nat, Code>, bank: Result<nat, Code>): Outcome {
    var r := m.record;
    if book.Err? then Outcome(m, book.error)
    else if bank.Err? then Outcome(m, bank.error)
    else
      var m' := m.(amount := Some(book.value), delta := Some(book.value - bank.value));
      if book.value != bank.value then Outcome(m', AMOUNT_MISMATCH)
      else Outcome(m'.(binding := Some(Binding(m.config.tenant, m.config.scope, r.ref, r.release, r.currency, book.value, r.sourceRefs)),
                       phase := Reconciled), RECONCILED)
  }

  /** The role an actor approves in: partner before compliance. */
  function ApprovalRole(a: Actor): Option<Role> {
    if PartnerRole in a.roles then Some(Partner) else if ComplianceRole in a.roles then Some(Compliance) else None
  }

  predicate Separated(c: Config, approvals: map<Role, string>, role: Role, principal: string) {
    forall other :: other in approvals && other != role ==> Principal(c, approvals[other]) != principal
  }

  predicate Sufficient(approvals: map<Role, string>, amount: nat, threshold: nat) {
    Partner in approvals && (amount >= threshold ==> Compliance in approvals)
  }

  /** None if the amount or the threshold were missing; a reconciled record has both. */
  function DoApprove(m: Machine, name: string, actor: Actor): Option<Outcome> {
    var role := ApprovalRole(actor);
    var threshold := Threshold(m.record.release, m.record.currency);
    if actor.principal == m.record.author then Deny(m, SELF_APPROVAL_DENIED)
    else if role.None? then Deny(m, ROLE_DENIED)
    else if !Separated(m.config, m.approvals, role.value, actor.principal) then Deny(m, PRINCIPAL_SEPARATION_DENIED)
    else if m.amount.None? || threshold.None? then None
    else
      var approvals := m.approvals[role.value := name];
      if Sufficient(approvals, m.amount.value, threshold.value)
      then Some(Outcome(m.(approvals := approvals, phase := Approved), APPROVED))
      else Some(Outcome(m.(approvals := approvals, phase := Reconciled), APPROVAL_RECORDED))
  }

  predicate ApproversStillAuthorized(m: Machine) {
    forall role :: role in m.approvals ==> Refusal(m.config, Some(m.approvals[role]), Some(NameOf(role))).None?
  }

  function DoPrepare(m: Machine): Outcome {
    if !ApproversStillAuthorized(m) then Outcome(m, APPROVER_AUTHORITY_REVOKED)
    else Outcome(m.(phase := Prepared, plans := 1), PREPARED)
  }

  predicate PhaseAllows(phase: Phase, command: Command) {
    match command
    case Reconcile => phase == Draft
    case Approve => phase == Reconciled || phase == Approved
    case Prepare => phase == Approved || phase == Prepared
    case _ => false
  }

  /** What an admitted command does to the record that it finds. */
  function OnRecord(m: Machine, command: Command, name: string, actor: Actor): Option<Outcome> {
    if !PhaseAllows(m.phase, command) then Deny(m, INVALID_STATE)
    else if m.record.release != m.config.activeRelease then Deny(m, RELEASE_CHANGED)
    else
      var fault := FreshnessFault(m.config, m.record);
      if fault.Some? then Deny(m, fault.value)
      else if command.Reconcile? then Some(DoReconcile(m))
      else if command.Approve? then DoApprove(m, name, actor)
      else Some(DoPrepare(m))
  }

  /** The code that a command is turned away with before it reaches the record, if any. */
  function Turned(m: Machine, command: Command, actingAs: Option<string>, ref: Option<Ref>, race: bool): (r: Option<Code>)
    ensures r.None? ==> actingAs.Some? && actingAs.value in m.config.actors && m.config.actors[actingAs.value].current
  {
    if command.Execute? then Some(EXECUTION_OUT_OF_SCOPE)
    else if command.Unknown? then Some(UNKNOWN_COMMAND)
    else
      var role := if command.Edit? || command.Reconcile? || command.Prepare? then Some(AnalystRole) else None;
      var refusal := Refusal(m.config, actingAs, role);
      if refusal.Some? then refusal
      else if ref.Some? && ref.value != m.record.ref then Some(RECORD_REF_MISMATCH)
      else if race then Some(COMMIT_CONFLICT) else None
  }

  function Admitted(m: Machine, command: Command, name: string): Option<Outcome>
    requires name in m.config.actors
  {
    var actor := m.config.actors[name];
    match command
    case Read => Some(Outcome(m.(readCount := m.readCount + 1, readbacks := m.readbacks + [TakeSnapshot(m)]), READ))
    case Edit(changes) => DoEdit(m, actor, changes)
    case _ => OnRecord(m, command, name, actor)
  }

  function DoCommand(m: Machine, command: Command, actingAs: Option<string>, ref: Option<Ref>, race: bool): Option<Outcome> {
    var turned := Turned(m, command, actingAs, ref, race);
    if turned.Some? then Deny(m, turned.value) else Admitted(m, command, actingAs.value)
  }

  /** A restart writes the state out and reads it back. */
  function Handle(m: Machine, e: Event): Option<Outcome> {
    match e
    case Restart => Some(Outcome(m, RESTARTED))
    case Refresh(source, ref) =>
      var at := SourceIndex(source, |m.config.sourceCurrent|);
      if at.None? then None
      else Some(Outcome(m.(config := m.config.(sourceCurrent := m.config.sourceCurrent[at.value := ref])), REFRESHED))
    case Activate(release) =>
      if !KnownRelease(release) then Deny(m, UNKNOWN_RELEASE)
      else Some(Outcome(m.(config := m.config.(activeRelease := release)), ACTIVATED))
    case Revoke(name) =>
      if name !in m.config.actors then None
      else Some(Outcome(m.(config := m.config.(actors := m.config.actors[name := m.config.actors[name].(current := false)])), REVOKED))
    case Do(command, actingAs, ref, race) => DoCommand(m, command, actingAs, ref, race)
  }

  function Step(m: Machine, e: Event): Option<Machine> {
    var r := Handle(m, e);
    if r.None? then None else Some(r.value.machine.(codes := m.codes + [r.value.code]))
  }

  function Start(c: Config, r: Record): Machine {
    Machine(c, r, Draft, map[], None, None, None, 0, 0, [], [], [])
  }

  function Replay(m: Machine, events: seq<Event>): Option<Machine> {
    if events == [] then Some(m)
    else
      match Replay(m, events[..|events| - 1])
      case None => None
      case Some(before) => Step(before, events[|events| - 1])
  }
}
