/** Allocation counters and their append-only charges
    (finnor-os/packages/db/identification-resources.ts). */
module IdentificationCharges {
  import opened Basics

  datatype Resource = Experiment | Observation | Analysis | Use
  datatype Kind = Counted(resource: Resource) | RetainedBytes
  datatype Status = Open | Cancelled | Invalidated | OtherStatus(text: string)

  /** A charge's body; stored bodies are compared as values, not as text. */
  datatype Body = Detail(value: string) | Evidence(sourceId: string, versionId: string, bytes: int)

  datatype Charge = Charge(id: string, owner: string, kind: Kind, amount: int, key: string, body: Body)
  datatype Item = Item(used: map<Resource, int>, max: map<Resource, int>, dataBytes: int, deadlineAt: int, status: Status)

  /** The identifications of a tenant, and the charges against them in order. */
  datatype State = State(items: map<string, Item>, charges: seq<Charge>, clock: int)

  datatype Error = IdempotencyConflict | Exhausted | StorageUnavailable | InsertRejected

  const MAX_BYTES := 16_777_216

  function Of(counts: map<Resource, int>, r: Resource): int {
    if r in counts then counts[r] else 0
  }

  function FindCharge(charges: seq<Charge>, owner: string, key: string): (r: Option<nat>)
    ensures r.Some? ==> r.value < |charges| && charges[r.value].owner == owner && charges[r.value].key == key
    ensures r.None? <==> forall i :: 0 <= i < |charges| ==> charges[i].owner != owner || charges[i].key != key
  {
    if charges == [] then None
    else if charges[|charges| - 1].owner == owner && charges[|charges| - 1].key == key then Some(|charges| - 1)
    else FindCharge(charges[..|charges| - 1], owner, key)
  }

  predicate Available(s: State, owner: string) {
    && owner in s.items && s.items[owner].deadlineAt > s.clock
    && s.items[owner].status != Cancelled && s.items[owner].status != Invalidated
  }

  predicate TakenId(charges: seq<Charge>, id: string) {
    exists i :: 0 <= i < |charges| && charges[i].id == id
  }

  function Reserve(s: State, owner: string, resource: Resource, key: string, detail: string, newId: string): Result<(State, string), Error> {
    var prior := FindCharge(s.charges, owner, key);
    if prior.Some? then
      var c := s.charges[prior.value];
      if c.kind != Counted(resource) || c.body != Detail(detail) then Err(IdempotencyConflict) else Ok((s, c.id))
    else if !Available(s, owner) || Of(s.items[owner].used, resource) >= Of(s.items[owner].max, resource) then Err(Exhausted)
    else if TakenId(s.charges, newId) then Err(InsertRejected)
    else
      var item := s.items[owner];
      Ok((s.(items := s.items[owner := item.(used := item.used[resource := Of(item.used, resource) + 1])],
             charges := s.charges + [Charge(newId, owner, Counted(resource), 1, key, Detail(detail))]), newId))
  }

  const EVIDENCE_PREFIX := "canonical-evidence:"

  /** measured is what the size query finds; nothing when there are no such rows. */
  function Retain(s: State, owner: string, sourceId: string, versionId: string, measured: Option<int>, newId: string)
    : Result<(State, string), Error>
  {
    var key := EVIDENCE_PREFIX + versionId;
    var prior := FindCharge(s.charges, owner, key);
    if prior.Some? then
      var c := s.charges[prior.value];
      if c.kind != RetainedBytes || !c.body.Evidence? || c.body.sourceId != sourceId || c.body.versionId != versionId
      then Err(IdempotencyConflict) else Ok((s, c.id))
    else if measured.None? || measured.value <= 0 then Err(StorageUnavailable)
    else if !Available(s, owner) || s.items[owner].dataBytes > MAX_BYTES - measured.value then Err(Exhausted)
    else if TakenId(s.charges, newId) then Err(InsertRejected)
    else
      var item := s.items[owner];
      Ok((s.(items := s.items[owner := item.(dataBytes := item.dataBytes + measured.value)],
             charges := s.charges + [Charge(newId, owner, RetainedBytes, measured.value, key, Evidence(sourceId, versionId, measured.value))]),
          newId))
  }

  // ------------------------------------------------------------------------
  // Runs
  // ------------------------------------------------------------------------

  datatype Op =
    | ReserveOp(owner: string, resource: Resource, key: string, detail: string, newId: string)
    | RetainOp(owner: string, sourceId: string, versionId: string, measured: Option<int>, newId: string)
    | TimeOp(elapsed: nat)
    | StatusOp(owner: string, status: Status)

  function Apply(s: State, op: Op): State {
    match op
    case ReserveOp(owner, resource, key, detail, newId) =>
      var r := Reserve(s, owner, resource, key, detail, newId);
      if r.Ok? then r.value.0 else s
    case RetainOp(owner, sourceId, versionId, measured, newId) =>
      var r := Retain(s, owner, sourceId, versionId, measured, newId);
      if r.Ok? then r.value.0 else s
    case TimeOp(elapsed) => s.(clock := s.clock + elapsed)
    case StatusOp(owner, status) =>
      if owner in s.items then s.(items := s.items[owner := s.items[owner].(status := status)]) else s
  }

  function Run(s: State, ops: seq<Op>): State {
    if ops == [] then s else Apply(Run(s, ops[..|ops| - 1]), ops[|ops| - 1])
  }

  // ------------------------------------------------------------------------
  // Conservation
  // ------------------------------------------------------------------------

  function CountOf(charges: seq<Charge>, owner: string, resource: Resource): nat {
    if charges == [] then 0
    else
      var last := charges[|charges| - 1];
      CountOf(charges[..|charges| - 1], owner, resource) + if last.owner == owner && last.kind == Counted(resource) then 1 else 0
  }

  function BytesOf(charges: seq<Charge>, owner: string): int {
    if charges == [] then 0
    else
      var last := charges[|charges| - 1];
      BytesOf(charges[..|charges| - 1], owner) + if last.owner == owner && last.kind == RetainedBytes then last.amount else 0
  }

  lemma Charged(charges: seq<Charge>, c: Charge, owner: string, resource: Resource)
    ensures CountOf(charges + [c], owner, resource)
         == CountOf(charges, owner, resource) + if c.owner == owner && c.kind == Counted(resource) then 1 else 0
    ensures BytesOf(charges + [c], owner)
         == BytesOf(charges, owner) + if c.owner == owner && c.kind == RetainedBytes then c.amount else 0
  {
    assert (charges + [c])[..|charges|] == charges;
  }

  /** Every counter has grown by the charges of its kind, and the bytes by the summed
      amounts; neither has grown past its limit; maxima and deadlines are untouched. */
  ghost predicate Conserved(start: State, now: State) {
    && start.items.Keys == now.items.Keys && start.charges <= now.charges && start.clock <= now.clock
    && (forall owner, r :: owner in start.items ==> CounterConserved(start, now, owner, r))
    && (forall owner :: owner in start.items ==> BytesConserved(start, now, owner))
  }

  ghost predicate CounterConserved(start: State, now: State, owner: string, r: Resource)
    requires owner in start.items && start.items.Keys == now.items.Keys
  {
    && Of(now.items[owner].used, r) - Of(start.items[owner].used, r)
         == CountOf(now.charges, owner, r) - CountOf(start.charges, owner, r)
    && Of(now.items[owner].max, r) == Of(start.items[owner].max, r)
    && (Of(now.items[owner].used, r) <= Of(now.items[owner].max, r)
          || Of(now.items[owner].used, r) == Of(start.items[owner].used, r))
  }

  ghost predicate BytesConserved(start: State, now: State, owner: string)
    requires owner in start.items && start.items.Keys == now.items.Keys
  {
    && now.items[owner].dataBytes - start.items[owner].dataBytes == BytesOf(now.charges, owner) - BytesOf(start.charges, owner)
    && now.items[owner].deadlineAt == start.items[owner].deadlineAt
    && (now.items[owner].dataBytes <= MAX_BYTES || now.items[owner].dataBytes == start.items[owner].dataBytes)
  }

  lemma ReserveConserves(start: State, s: State, owner: string, resource: Resource, key: string, detail: string, newId: string)
    requires Conserved(start, s) && Reserve(s, owner, resource, key, detail, newId).Ok?
    ensures Conserved(start, Reserve(s, owner, resource, key, detail, newId).value.0)
  {
    var s' := Reserve(s, owner, resource, key, detail, newId).value.0;
    if s' != s {
      forall o, r | o in start.items ensures CounterConserved(start, s', o, r) && BytesConserved(start, s', o) {
        assert CounterConserved(start, s, o, r) && BytesConserved(start, s, o);
        OneMoreConserves(start, s, s', owner, resource, o, r);
      }
      forall o | o in start.items ensures BytesConserved(start, s', o) {
        assert CounterConserved(start, s, o, resource) && BytesConserved(start, s, o);
        OneMoreConserves(start, s, s', owner, resource, o, resource);
      }
    }
  }

  lemma OneMoreConserves(start: State, s: State, s': State, owner: string, resource: Resource, o: string, r: Resource)
    requires start.items.Keys == s.items.Keys && o in start.items && owner in s.items
    requires CounterConserved(start, s, o, r) && BytesConserved(start, s, o)
    requires Of(s.items[owner].used, resource) < Of(s.items[owner].max, resource)
    requires |s'.charges| > 0 && s'.charges == s.charges + [s'.charges[|s'.charges| - 1]]
    requires s'.charges[|s'.charges| - 1].owner == owner && s'.charges[|s'.charges| - 1].kind == Counted(resource)
    requires var item := s.items[owner];
      s'.items == s.items[owner := item.(used := item.used[resource := Of(item.used, resource) + 1])]
    ensures CounterConserved(start, s', o, r) && BytesConserved(start, s', o)
  {
    Charged(s.charges, s'.charges[|s'.charges| - 1], o, r);
  }

  lemma RetainConserves(start: State, s: State, owner: string, sourceId: string, versionId: string, measured: Option<int>, newId: string)
    requires Conserved(start, s) && Retain(s, owner, sourceId, versionId, measured, newId).Ok?
    ensures Conserved(start, Retain(s, owner, sourceId, versionId, measured, newId).value.0)
  {
    var s' := Retain(s, owner, sourceId, versionId, measured, newId).value.0;
    if s' != s {
      var c := s'.charges[|s.charges|];
      forall o, r | o in start.items ensures CounterConserved(start, s', o, r) && BytesConserved(start, s', o) {
        assert CounterConserved(start, s, o, r) && BytesConserved(start, s, o);
        Charged(s.charges, c, o, r);
      }
      forall o | o in start.items ensures BytesConserved(start, s', o) {
        Charged(s.charges, c, o, Use);
      }
    }
  }

  /** After any run, from any state: counters, bytes and charges agree. */
  lemma {:induction false} ConservedInEveryRun(s: State, ops: seq<Op>)
    ensures Conserved(s, Run(s, ops))
  {
    if ops != [] {
      var before, op := Run(s, ops[..|ops| - 1]), ops[|ops| - 1];
      ConservedInEveryRun(s, ops[..|ops| - 1]);
      match op
      case ReserveOp(owner, resource, key, detail, newId) =>
        if Reserve(before, owner, resource, key, detail, newId).Ok? {
          ReserveConserves(s, before, owner, resource, key, detail, newId);
        }
      case RetainOp(owner, sourceId, versionId, measured, newId) =>
        if Retain(before, owner, sourceId, versionId, measured, newId).Ok? {
          RetainConserves(s, before, owner, sourceId, versionId, measured, newId);
        }
      case TimeOp(_) => SameCounts(s, before, Apply(before, op));
      case StatusOp(_, _) => SameCounts(s, before, Apply(before, op));
    }
  }

  lemma SameCounts(start: State, s: State, s': State)
    requires Conserved(start, s) && s'.items.Keys == s.items.Keys && s'.charges == s.charges && s'.clock >= s.clock
    requires forall o :: o in s.items ==> s'.items[o] == s.items[o].(status := s'.items[o].status)
    ensures Conserved(start, s')
  {
    forall o, r | o in start.items ensures CounterConserved(start, s', o, r) {
      assert CounterConserved(start, s, o, r);
    }
    forall o | o in start.items ensures BytesConserved(start, s', o) {
      assert BytesConserved(start, s, o);
    }
  }

  // ------------------------------------------------------------------------
  // When a charge is made
  // ------------------------------------------------------------------------

  /** The allocation exists, its deadline is ahead, and it is neither cancelled nor
      invalidated. */
  ghost predicate IsOpen(s: State, owner: string) {
    && owner in s.items && s.clock < s.items[owner].deadlineAt
    && !s.items[owner].status.Cancelled? && !s.items[owner].status.Invalidated?
  }

  ghost predicate KeyIsNew(s: State, owner: string, key: string) {
    forall c :: c in s.charges && c.owner == owner ==> c.key != key
  }

  ghost predicate IdIsNew(s: State, id: string) {
    forall c :: c in s.charges ==> c.id != id
  }

  /** A new key, under a new id, is charged exactly while the allocation is open and its counter
      is below the maximum: one charge of amount one is appended and the counter moves by one. */
  lemma ReservedExactly(s: State, owner: string, resource: Resource, key: string, detail: string, newId: string)
    requires KeyIsNew(s, owner, key)
    requires owner in s.items ==> resource in s.items[owner].used && resource in s.items[owner].max
    ensures var r := Reserve(s, owner, resource, key, detail, newId);
      && (r == Err(Exhausted) <==> !(IsOpen(s, owner) && s.items[owner].used[resource] < s.items[owner].max[resource]))
      && (r == Err(InsertRejected) <==> r != Err(Exhausted) && !IdIsNew(s, newId))
      && (r.Err? ==> r.error in [Exhausted, InsertRejected])
      && (r.Ok? ==>
            var item := s.items[owner];
            && r.value.1 == newId && r.value.0.clock == s.clock
            && r.value.0.charges == s.charges + [Charge(newId, owner, Counted(resource), 1, key, Detail(detail))]
            && r.value.0.items == s.items[owner := item.(used := item.used[resource := item.used[resource] + 1])])
  {
    assert FindCharge(s.charges, owner, key).None?;
    assert TakenId(s.charges, newId) <==> !IdIsNew(s, newId);
  }

  /** A version not charged before is charged, under a new id, exactly while its size is known
      and positive, the allocation is open, and the bytes stay within 16 MiB: its very size is
      added. */
  lemma RetainedExactly(s: State, owner: string, sourceId: string, versionId: string, measured: Option<int>, newId: string)
    requires KeyIsNew(s, owner, "canonical-evidence:" + versionId)
    ensures var r := Retain(s, owner, sourceId, versionId, measured, newId);
      && (r == Err(StorageUnavailable) <==> measured.None? || measured.value <= 0)
      && (r == Err(Exhausted) <==>
            && measured.Some? && measured.value > 0
            && !(IsOpen(s, owner) && s.items[owner].dataBytes + measured.value <= 16 * 1024 * 1024))
      && (r == Err(InsertRejected) <==> r !in [Err(StorageUnavailable), Err(Exhausted)] && !IdIsNew(s, newId))
      && (r.Err? ==> r.error in [StorageUnavailable, Exhausted, InsertRejected])
      && (r.Ok? ==>
            var item := s.items[owner];
            && r.value.1 == newId && r.value.0.clock == s.clock
            && r.value.0.charges == s.charges + [Charge(newId, owner, RetainedBytes, measured.value, "canonical-evidence:" + versionId,
                                                         Evidence(sourceId, versionId, measured.value))]
            && r.value.0.items == s.items[owner := item.(dataBytes := item.dataBytes + measured.value)])
  {
    assert FindCharge(s.charges, owner, EVIDENCE_PREFIX + versionId).None?;
    assert TakenId(s.charges, newId) <==> !IdIsNew(s, newId);
  }

  /** Time may have passed and the status moved; no charge was added for the owner. */
  ghost predicate NotCharged(s: State, s': State, owner: string) {
    && s.clock <= s'.clock && s.charges <= s'.charges
    && (forall k :: |s.charges| <= k < |s'.charges| ==> s'.charges[k].owner != owner)
    && (owner in s'.items <==> owner in s.items)
    && (owner in s.items ==> s'.items[owner] == s.items[owner].(status := s'.items[owner].status))
  }

  lemma OverdueIsNotCharged(s: State, op: Op, owner: string)
    requires owner in s.items ==> s.items[owner].deadlineAt <= s.clock
    ensures NotCharged(s, Apply(s, op), owner)
  {
    assert !Available(s, owner);
  }

  lemma NotChargedThroughout(s: State, middle: State, s': State, owner: string)
    requires NotCharged(s, middle, owner) && NotCharged(middle, s', owner)
    ensures NotCharged(s, s', owner)
  {
  }

  /** Once its deadline has passed an allocation is never charged again, whatever is asked
      and whatever its status becomes. */
  lemma {:induction false} OverdueIsNeverCharged(s: State, ops: seq<Op>, owner: string)
    requires owner in s.items ==> s.items[owner].deadlineAt <= s.clock
    ensures NotCharged(s, Run(s, ops), owner)
  {
    if ops != [] {
      var before, op := Run(s, ops[..|ops| - 1]), ops[|ops| - 1];
      OverdueIsNeverCharged(s, ops[..|ops| - 1], owner);
      OverdueIsNotCharged(before, op, owner);
      NotChargedThroughout(s, before, Apply(before, op), owner);
    }
  }

  // ------------------------------------------------------------------------
  // Replays
  // ------------------------------------------------------------------------

  ghost predicate KeysUnique(charges: seq<Charge>) {
    forall i, k :: 0 <= i < k < |charges| ==> charges[i].owner != charges[k].owner || charges[i].key != charges[k].key
  }

  lemma {:induction false} RunKeepsKeysUnique(s: State, ops: seq<Op>)
    requires KeysUnique(s.charges)
    ensures KeysUnique(Run(s, ops).charges)
  {
    if ops != [] {
      RunKeepsKeysUnique(s, ops[..|ops| - 1]);
    }
  }

  lemma {:induction false} RunKeepsCharges(s: State, ops: seq<Op>)
    ensures s.charges <= Run(s, ops).charges
  {
    if ops != [] {
      RunKeepsCharges(s, ops[..|ops| - 1]);
    }
  }

  lemma FoundAgain(charges: seq<Charge>, longer: seq<Charge>, k: nat)
    requires k < |charges| && charges <= longer && KeysUnique(longer)
    ensures FindCharge(longer, charges[k].owner, charges[k].key) == Some(k)
  {
    var at := FindCharge(longer, charges[k].owner, charges[k].key);
    assert longer[k] == charges[k];
  }

  lemma KeyStaysFound(s: State, later: seq<Op>, owner: string, key: string)
    requires KeysUnique(s.charges) && FindCharge(s.charges, owner, key).Some?
    ensures var now := Run(s, later).charges; var k := FindCharge(s.charges, owner, key);
      FindCharge(now, owner, key) == k && k.value < |now| && now[k.value] == s.charges[k.value]
  {
    RunKeepsCharges(s, later);
    RunKeepsKeysUnique(s, later);
    FoundAgain(s.charges, Run(s, later).charges, FindCharge(s.charges, owner, key).value);
  }

  /** Once a reservation is charged, presenting its key again, however much later and even
      after the allocation is spent or closed, answers with the same charge and charges
      nothing; presenting the key for anything else is a conflict and changes nothing. */
  lemma ReplayedReservation(s: State, owner: string, resource: Resource, key: string, detail: string, newId: string, later: seq<Op>,
                            resource2: Resource, detail2: string, newId2: string)
    requires KeysUnique(s.charges) && Reserve(s, owner, resource, key, detail, newId).Ok?
    ensures var (s', id) := Reserve(s, owner, resource, key, detail, newId).value; var now := Run(s', later);
      Reserve(now, owner, resource2, key, detail2, newId2) ==
        if resource2 == resource && detail2 == detail then Ok((now, id)) else Err(IdempotencyConflict)
  {
    var (s', id) := Reserve(s, owner, resource, key, detail, newId).value;
    ReservedIsFound(s, owner, resource, key, detail, newId);
    KeyStaysFound(s', later, owner, key);
    ReservationAnswers(Run(s', later), owner, key, FindCharge(s'.charges, owner, key).value, resource, detail,
                       resource2, detail2, newId2);
  }

  /** The charge of a reservation, found under its key. */
  ghost predicate ReservedAt(s: State, owner: string, key: string, k: nat, resource: Resource, detail: string) {
    && FindCharge(s.charges, owner, key) == Some(k) && k < |s.charges|
    && s.charges[k].kind == Counted(resource) && s.charges[k].body == Detail(detail)
  }

  lemma ReservedIsFound(s: State, owner: string, resource: Resource, key: string, detail: string, newId: string)
    requires KeysUnique(s.charges) && Reserve(s, owner, resource, key, detail, newId).Ok?
    ensures var (s', id) := Reserve(s, owner, resource, key, detail, newId).value;
      var k := FindCharge(s'.charges, owner, key);
      KeysUnique(s'.charges) && k.Some? && ReservedAt(s', owner, key, k.value, resource, detail) && s'.charges[k.value].id == id
  {
  }

  lemma ReservationAnswers(s: State, owner: string, key: string, k: nat, resource: Resource, detail: string,
                           resource2: Resource, detail2: string, newId: string)
    requires ReservedAt(s, owner, key, k, resource, detail)
    ensures Reserve(s, owner, resource2, key, detail2, newId) ==
      if resource2 == resource && detail2 == detail then Ok((s, s.charges[k].id)) else Err(IdempotencyConflict)
  {
  }

  /** The same for retained evidence, whose key is the version: the bytes of a version are
      charged once, whatever is measured later. */
  lemma ReplayedRetention(s: State, owner: string, sourceId: string, versionId: string, measured: Option<int>, newId: string, later: seq<Op>,
                          sourceId2: string, measured2: Option<int>, newId2: string)
    requires KeysUnique(s.charges) && Retain(s, owner, sourceId, versionId, measured, newId).Ok?
    ensures var (s', id) := Retain(s, owner, sourceId, versionId, measured, newId).value; var now := Run(s', later);
      Retain(now, owner, sourceId2, versionId, measured2, newId2) ==
        if sourceId2 == sourceId then Ok((now, id)) else Err(IdempotencyConflict)
  {
    var (s', id) := Retain(s, owner, sourceId, versionId, measured, newId).value;
    var key := EVIDENCE_PREFIX + versionId;
    RetainedIsFound(s, owner, sourceId, versionId, measured, newId);
    KeyStaysFound(s', later, owner, key);
    RetentionAnswers(Run(s', later), owner, versionId, FindCharge(s'.charges, owner, key).value, sourceId, sourceId2, measured2, newId2);
  }

  /** The charge for the bytes of a version, found under its key. */
  ghost predicate RetainedAt(s: State, owner: string, versionId: string, k: nat, sourceId: string) {
    && FindCharge(s.charges, owner, EVIDENCE_PREFIX + versionId) == Some(k) && k < |s.charges|
    && s.charges[k].kind == RetainedBytes && s.charges[k].body.Evidence?
    && s.charges[k].body.sourceId == sourceId && s.charges[k].body.versionId == versionId
  }

  lemma RetainedIsFound(s: State, owner: string, sourceId: string, versionId: string, measured: Option<int>, newId: string)
    requires KeysUnique(s.charges) && Retain(s, owner, sourceId, versionId, measured, newId).Ok?
    ensures var (s', id) := Retain(s, owner, sourceId, versionId, measured, newId).value;
      var k := FindCharge(s'.charges, owner, EVIDENCE_PREFIX + versionId);
      KeysUnique(s'.charges) && k.Some? && RetainedAt(s', owner, versionId, k.value, sourceId) && s'.charges[k.value].id == id
  {
  }

  lemma RetentionAnswers(s: State, owner: string, versionId: string, k: nat, sourceId: string,
                         sourceId2: string, measured: Option<int>, newId: string)
    requires RetainedAt(s, owner, versionId, k, sourceId)
    ensures Retain(s, owner, sourceId2, versionId, measured, newId) ==
      if sourceId2 == sourceId then Ok((s, s.charges[k].id)) else Err(IdempotencyConflict)
  {
  }

  // ------------------------------------------------------------------------
  // The transactions as they run
  // ------------------------------------------------------------------------

  class ChargeTables {
    var items: map<string, Item>
    var charges: seq<Charge>
    var clock: int

    function View(): State
      reads this
    {
      State(items, charges, clock)
    }

    constructor (items: map<string, Item>, clock: int)
      ensures View() == State(items, [], clock)
    {
      this.items, charges, this.clock := items, [], clock;
    }

    method Lookup(owner: string, key: string) returns (at: Option<nat>)
      ensures at == FindCharge(charges, owner, key)
    {
      var i := |charges|;
      assert charges[..i] == charges;
      while i > 0
        invariant 0 <= i <= |charges|
        invariant FindCharge(charges, owner, key) == FindCharge(charges[..i], owner, key)
      {
        assert charges[..i][..i - 1] == charges[..i - 1];
        if charges[i - 1].owner == owner && charges[i - 1].key == key { return Some(i - 1); }
        i := i - 1;
      }
      at := None;
    }

    method ReserveResource(owner: string, resource: Resource, key: string, detail: string, newId: string)
      returns (r: Result<string, Error>)
      modifies this
      ensures var spec := Reserve(old(View()), owner, resource, key, detail, newId);
        match spec
        case Err(e) => r == Err(e) && View() == old(View())
        case Ok((s, id)) => r == Ok(id) && View() == s
    {
      var prior := Lookup(owner, key);
      if prior.Some? {
        var c := charges[prior.value];
        if c.kind != Counted(resource) || c.body != Detail(detail) { return Err(IdempotencyConflict); }
        return Ok(c.id);
      }
      if !Available(View(), owner) || Of(items[owner].used, resource) >= Of(items[owner].max, resource) { return Err(Exhausted); }
      if TakenId(charges, newId) { return Err(InsertRejected); }
      var item := items[owner];
      items := items[owner := item.(used := item.used[resource := Of(item.used, resource) + 1])];
      charges := charges + [Charge(newId, owner, Counted(resource), 1, key, Detail(detail))];
      r := Ok(newId);
    }

    method RetainEvidence(owner: string, sourceId: string, versionId: string, measured: Option<int>, newId: string)
      returns (r: Result<string, Error>)
      modifies this
      ensures var spec := Retain(old(View()), owner, sourceId, versionId, measured, newId);
        match spec
        case Err(e) => r == Err(e) && View() == old(View())
        case Ok((s, id)) => r == Ok(id) && View() == s
    {
      var key := EVIDENCE_PREFIX + versionId;
      var prior := Lookup(owner, key);
      if prior.Some? {
        var c := charges[prior.value];
        if c.kind != RetainedBytes || !c.body.Evidence? || c.body.sourceId != sourceId || c.body.versionId != versionId {
          return Err(IdempotencyConflict);
        }
        return Ok(c.id);
      }
      if measured.None? || measured.value <= 0 { return Err(StorageUnavailable); }
      if !Available(View(), owner) || items[owner].dataBytes > MAX_BYTES - measured.value { return Err(Exhausted); }
      if TakenId(charges, newId) { return Err(InsertRejected); }
      var item := items[owner];
      items := items[owner := item.(dataBytes := item.dataBytes + measured.value)];
      charges := charges + [Charge(newId, owner, RetainedBytes, measured.value, key, Evidence(sourceId, versionId, measured.value))];
      r := Ok(newId);
    }
  }
}
