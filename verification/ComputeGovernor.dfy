/** Shared compute capacity (finnor-os/packages/db/compute-governor.ts and the fenced
    release in finnor-os/packages/db/execution-deadline.ts): fenced, expiring permits
    granted all together or not at all. Times are microseconds. */
module ComputeGovernor {
  import opened Basics

  datatype Workload = Realtime | Interactive | Background | Heavy

  datatype Policy = Policy(key: string, capacity: int, perTenant: int, reserve: int, leaseSeconds: int, nextFence: int, enabled: bool)

  datatype Lease = Lease(resourceKey: string, tenantKey: string, workload: Workload, ownerId: string, token: string,
                         fence: int, expiresAt: int, releasedAt: Option<int>)

  /** What a caller holds. */
  datatype Permit = Permit(resourceKey: string, token: string, fence: int, ownerId: string)

  /** Policies are kept in key order, one per key. */
  datatype State = State(policies: seq<Policy>, leases: seq<Lease>, clock: int)

  datatype Error = NoKeys | MandatoryPolicyMissing | CapacityUnavailable(key: string) | TokenTaken

  const SECOND := 1_000_000
  const GLOBAL_TENANT := "__global__"

  predicate Live(l: Lease, now: int) {
    l.releasedAt.None? && l.expiresAt > now
  }

  // ------------------------------------------------------------------------
  // Counting
  // ------------------------------------------------------------------------

  /** Which leases a limit is about. */
  datatype Selection = OfResource(key: string) | OfTenant(key: string, tenant: string) | OfLowPriority(key: string)

  predicate LowPriority(w: Workload) {
    w == Background || w == Heavy
  }

  predicate Selects(which: Selection, l: Lease) {
    match which
    case OfResource(key) => l.resourceKey == key
    case OfTenant(key, tenant) => l.resourceKey == key && l.tenantKey == tenant
    case OfLowPriority(key) => l.resourceKey == key && LowPriority(l.workload)
  }

  function Count(leases: seq<Lease>, now: int, which: Selection): nat {
    if leases == [] then 0
    else
      var last := leases[|leases| - 1];
      Count(leases[..|leases| - 1], now, which) + if Selects(which, last) && Live(last, now) then 1 else 0
  }

  function Max(a: int, b: int): int {
    if a < b then b else a
  }

  /** A low-priority call never borrows the foreground reserve. */
  function ClassLimit(p: Policy, w: Workload): int {
    if LowPriority(w) then Max(0, p.capacity - p.reserve) else p.capacity
  }

  // ------------------------------------------------------------------------
  // Acquire
  // ------------------------------------------------------------------------

  /** The enabled policies among the requested keys, in key order. */
  function Configured(policies: seq<Policy>, keys: set<string>): seq<Policy> {
    if policies == [] then []
    else
      var before := Configured(policies[..|policies| - 1], keys);
      var p := policies[|policies| - 1];
      if p.enabled && p.key in keys then before + [p] else before
  }

  function Keys(policies: seq<Policy>): set<string> {
    set p | p in policies :: p.key
  }

  predicate HasRoom(p: Policy, leases: seq<Lease>, now: int, tenant: string, w: Workload) {
    Count(leases, now, OfResource(p.key)) < ClassLimit(p, w) && Count(leases, now, OfTenant(p.key, tenant)) < p.perTenant
  }

  /** The first policy without room. */
  function FirstFull(policies: seq<Policy>, leases: seq<Lease>, now: int, tenant: string, w: Workload): Option<string> {
    if policies == [] then None
    else if !HasRoom(policies[0], leases, now, tenant, w) then Some(policies[0].key)
    else FirstFull(policies[1..], leases, now, tenant, w)
  }

  function TakeFence(policies: seq<Policy>, key: string): (r: seq<Policy>)
    ensures |r| == |policies|
    ensures forall i :: 0 <= i < |r| ==>
      r[i] == if policies[i].key == key then policies[i].(nextFence := policies[i].nextFence + 1) else policies[i]
  {
    if policies == [] then []
    else
      var last := policies[|policies| - 1];
      TakeFence(policies[..|policies| - 1], key) + [if last.key == key then last.(nextFence := last.nextFence + 1) else last]
  }

  function NewLease(p: Policy, now: int, tenant: string, w: Workload, ownerId: string, token: string): Lease {
    Lease(p.key, tenant, w, ownerId, token, p.nextFence, now + p.leaseSeconds * SECOND, None)
  }

  function PermitOf(l: Lease): Permit {
    Permit(l.resourceKey, l.token, l.fence, l.ownerId)
  }

  function GrantOne(s: State, p: Policy, tenant: string, w: Workload, ownerId: string, token: string): State {
    s.(policies := TakeFence(s.policies, p.key), leases := s.leases + [NewLease(p, s.clock, tenant, w, ownerId, token)])
  }

  /** One lease per policy; token k goes to the k-th. */
  function Grant(s: State, granted: seq<Policy>, tenant: string, w: Workload, ownerId: string, tokens: seq<string>): State
    requires |granted| == |tokens|
  {
    if granted == [] then s
    else
      var n := |granted| - 1;
      GrantOne(Grant(s, granted[..n], tenant, w, ownerId, tokens[..n]), granted[n], tenant, w, ownerId, tokens[n])
  }

  function Tokens(leases: seq<Lease>): set<string> {
    set l | l in leases :: l.token
  }

  predicate FreshTokens(leases: seq<Lease>, tokens: seq<string>) {
    && (forall i :: 0 <= i < |tokens| ==> tokens[i] !in Tokens(leases))
    && (forall i, k :: 0 <= i < k < |tokens| ==> tokens[i] != tokens[k])
  }

  /** The tokens are what the random generator gives, at least one per requested key; a
      repeated token is refused by the table. */
  function Acquire(s: State, keys: seq<string>, required: seq<string>, tenantId: Option<string>, w: Workload,
                   ownerId: string, tokens: seq<string>): Result<(State, seq<Permit>), Error>
    requires |tokens| >= |Configured(s.policies, set k | k in keys)|
  {
    var rows := Configured(s.policies, set k | k in keys);
    var tenant := if tenantId.Some? then tenantId.value else GLOBAL_TENANT;
    if keys == [] then Err(NoKeys)
    else if exists k :: k in required && k !in Keys(rows) then Err(MandatoryPolicyMissing)
    else
      var full := FirstFull(rows, s.leases, s.clock, tenant, w);
      if full.Some? then Err(CapacityUnavailable(full.value))
      else if !FreshTokens(s.leases, tokens[..|rows|]) then Err(TokenTaken)
      else
        var s' := Grant(s, rows, tenant, w, ownerId, tokens[..|rows|]);
        Ok((s', seq(|rows|, i requires 0 <= i < |rows| => Permit(rows[i].key, tokens[i], rows[i].nextFence, ownerId))))
  }

  // ------------------------------------------------------------------------
  // Renew
  // ------------------------------------------------------------------------

  predicate Matches(l: Lease, p: Permit) {
    PermitOf(l) == p
  }

  /** Row numbers of the live leases a permit names. */
  function LiveRows(leases: seq<Lease>, p: Permit, now: int): seq<nat> {
    if leases == [] then []
    else
      var n := |leases| - 1;
      var before := LiveRows(leases[..n], p, now);
      if Matches(leases[n], p) && Live(leases[n], now) then before + [n] else before
  }

  /** The join of the presented permits with the live leases. */
  function Joined(leases: seq<Lease>, owned: seq<Permit>, now: int): seq<nat> {
    if owned == [] then []
    else Joined(leases, owned[..|owned| - 1], now) + LiveRows(leases, owned[|owned| - 1], now)
  }

  function FindPolicy(policies: seq<Policy>, key: string): (r: Option<Policy>)
    ensures r.Some? ==> r.value in policies && r.value.key == key
    ensures r.None? ==> forall p :: p in policies ==> p.key != key
  {
    if policies == [] then None
    else if policies[|policies| - 1].key == key then Some(policies[|policies| - 1])
    else FindPolicy(policies[..|policies| - 1], key)
  }

  /** Rows that have a policy to take the new expiry from. */
  function Updatable(s: State, rows: set<nat>): set<nat> {
    set i | i in rows && i < |s.leases| && FindPolicy(s.policies, s.leases[i].resourceKey).Some?
  }

  function Extended(policies: seq<Policy>, l: Lease, now: int): Lease {
    var p := FindPolicy(policies, l.resourceKey);
    if p.Some? then l.(expiresAt := now + p.value.leaseSeconds * SECOND) else l
  }

  function ExtendRows(s: State, rows: set<nat>): State {
    s.(leases := seq(|s.leases|, i requires 0 <= i < |s.leases| =>
      if i in rows then Extended(s.policies, s.leases[i], s.clock) else s.leases[i]))
  }

  function AsSet(rows: seq<nat>): set<nat> {
    set i | i in rows
  }

  function Renew(s: State, owned: seq<Permit>): (State, bool) {
    if owned == [] then (s, true)
    else
      var rows := Joined(s.leases, owned, s.clock);
      if |rows| != |owned| || |Updatable(s, AsSet(rows))| != |owned| then (s, false)
      else (ExtendRows(s, AsSet(rows)), true)
  }

  // ------------------------------------------------------------------------
  // Release
  // ------------------------------------------------------------------------

  function ReleasedRow(l: Lease, owned: seq<Permit>, now: int): Lease {
    if l.releasedAt.None? && PermitOf(l) in owned then l.(releasedAt := Some(now)) else l
  }

  function Release(s: State, owned: seq<Permit>): State {
    s.(leases := seq(|s.leases|, i requires 0 <= i < |s.leases| => ReleasedRow(s.leases[i], owned, s.clock)))
  }

  // ------------------------------------------------------------------------
  // Runs
  // ------------------------------------------------------------------------

  datatype Op =
    | TimeOp(elapsed: nat)
    | AcquireOp(keys: seq<string>, required: seq<string>, tenantId: Option<string>, workload: Workload, ownerId: string, tokens: seq<string>)
    | RenewOp(owned: seq<Permit>)
    | ReleaseOp(owned: seq<Permit>)

  function Apply(s: State, op: Op): State {
    match op
    case TimeOp(elapsed) => s.(clock := s.clock + elapsed)
    case AcquireOp(keys, required, tenantId, w, ownerId, tokens) =>
      if |tokens| < |Configured(s.policies, set k | k in keys)| then s
      else
        var r := Acquire(s, keys, required, tenantId, w, ownerId, tokens);
        if r.Ok? then r.value.0 else s
    case RenewOp(owned) => Renew(s, owned).0
    case ReleaseOp(owned) => Release(s, owned)
  }

  function Run(s: State, ops: seq<Op>): State {
    if ops == [] then s else Apply(Run(s, ops[..|ops| - 1]), ops[|ops| - 1])
  }

  /** What the table's checks admit for policies, before any lease was granted. */
  predicate Initial(s: State) {
    && s.leases == []
    && (forall i :: 0 <= i < |s.policies| ==>
          && s.policies[i].capacity > 0 && 0 < s.policies[i].perTenant <= s.policies[i].capacity
          && 0 <= s.policies[i].reserve <= s.policies[i].capacity
          && 15 <= s.policies[i].leaseSeconds <= 3600 && s.policies[i].nextFence > 0)
    && (forall i, k :: 0 <= i < k < |s.policies| ==> s.policies[i].key != s.policies[k].key)
  }
}
