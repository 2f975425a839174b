/** What the governor counts, when it grants and refuses, and what grants, renewals and
    releases write, stated on the rows themselves. */
module ComputeEffects {
  import opened Basics
  import opened ComputeGovernor
  import opened ComputeGovernorSafety
  import opened ComputeGovernorFences

  // ------------------------------------------------------------------------
  // Counting
  // ------------------------------------------------------------------------

  /** The rows of a resource that are not released and not expired. */
  ghost function LiveOn(leases: seq<Lease>, now: int, key: string): set<nat> {
    set i: nat | i < |leases| && leases[i].resourceKey == key && leases[i].releasedAt == None && now < leases[i].expiresAt
  }

  ghost function LiveOfTenant(leases: seq<Lease>, now: int, key: string, tenant: string): set<nat> {
    set i: nat | i < |leases| && leases[i].resourceKey == key && leases[i].releasedAt == None && now < leases[i].expiresAt
                 && leases[i].tenantKey == tenant
  }

  ghost function LiveLowPriority(leases: seq<Lease>, now: int, key: string): set<nat> {
    set i: nat | i < |leases| && leases[i].resourceKey == key && leases[i].releasedAt == None && now < leases[i].expiresAt
                 && leases[i].workload in [Background, Heavy]
  }

  ghost function Counted(leases: seq<Lease>, now: int, which: Selection): set<nat> {
    match which
    case OfResource(key) => LiveOn(leases, now, key)
    case OfTenant(key, tenant) => LiveOfTenant(leases, now, key, tenant)
    case OfLowPriority(key) => LiveLowPriority(leases, now, key)
  }

  /** A count is the number of live rows it is about. */
  lemma {:induction false} CountIsSize(leases: seq<Lease>, now: int, which: Selection)
    ensures Count(leases, now, which) == |Counted(leases, now, which)|
  {
    if leases == [] {
      assert Counted(leases, now, which) == {};
    } else {
      var n := |leases| - 1;
      CountIsSize(leases[..n], now, which);
      CountedSnoc(leases, now, which);
    }
  }

  lemma CountedSnoc(leases: seq<Lease>, now: int, which: Selection)
    requires leases != []
    ensures var n := |leases| - 1;
      Counted(leases, now, which)
      == Counted(leases[..n], now, which) + if Selects(which, leases[n]) && Live(leases[n], now) then {n} else {}
  {
  }

  /** After any run of grants, renewals and releases no resource has more live rows than its
      capacity, no more of low priority than the reserve leaves, and no more of one tenant
      than a tenant may have. */
  lemma LiveRowsStayWithinLimits(s: State, ops: seq<Op>, now: State, p: Policy, tenant: string)
    requires Initial(s) && now == Run(s, ops) && p in now.policies
    ensures |LiveOn(now.leases, now.clock, p.key)| <= p.capacity
    ensures |LiveLowPriority(now.leases, now.clock, p.key)| <= p.capacity - p.reserve
    ensures |LiveOfTenant(now.leases, now.clock, p.key, tenant)| <= p.perTenant
  {
    LimitsHoldInEveryRun(s, ops);
    CountIsSize(now.leases, now.clock, OfResource(p.key));
    CountIsSize(now.leases, now.clock, OfLowPriority(p.key));
    CountIsSize(now.leases, now.clock, OfTenant(p.key, tenant));
    assert WithinLimits(p, now.leases, now.clock) && PolicySound(p);
  }

  // ------------------------------------------------------------------------
  // When a request is granted
  // ------------------------------------------------------------------------

  /** One more lease fits: below the capacity, or what the reserve leaves of it to a
      workload of low priority, and below what a tenant may have. */
  ghost predicate Fits(s: State, p: Policy, tenant: string, w: Workload) {
    && |LiveOn(s.leases, s.clock, p.key)| < (if w in [Background, Heavy] then p.capacity - p.reserve else p.capacity)
    && |LiveOfTenant(s.leases, s.clock, p.key, tenant)| < p.perTenant
  }

  lemma RoomIsFit(s: State, p: Policy, tenant: string, w: Workload)
    ensures HasRoom(p, s.leases, s.clock, tenant, w) <==> Fits(s, p, tenant, w)
  {
    CountIsSize(s.leases, s.clock, OfResource(p.key));
    CountIsSize(s.leases, s.clock, OfTenant(p.key, tenant));
  }

  /** A key is requested and its policy is enabled. */
  ghost predicate Wanted(p: Policy, keys: seq<string>) {
    p.enabled && p.key in keys
  }

  ghost predicate AllFit(s: State, keys: seq<string>, tenant: string, w: Workload) {
    forall p :: p in s.policies && Wanted(p, keys) ==> Fits(s, p, tenant, w)
  }

  ghost predicate AllPresent(s: State, keys: seq<string>, required: seq<string>) {
    forall k :: k in required ==> exists p :: p in s.policies && Wanted(p, keys) && p.key == k
  }

  /** The tenant whose leases count, a common one for calls without a tenant. */
  ghost predicate IsTenant(tenantId: Option<string>, tenant: string) {
    match tenantId
    case Some(id) => tenant == id
    case None => tenant == "__global__"
  }

  /** With tokens never used before, a request is granted exactly when it names a key, every
      mandatory key has an enabled policy among the requested ones, and one more lease fits
      every enabled requested policy. It is refused for want of room only over a policy that
      has none, and only when nothing else stands against it. */
  lemma GrantedExactly(s: State, keys: seq<string>, required: seq<string>, tenantId: Option<string>, w: Workload,
                       ownerId: string, tokens: seq<string>, tenant: string)
    requires DistinctKeys(s.policies) && |tokens| >= |Configured(s.policies, set k | k in keys)| && IsTenant(tenantId, tenant)
    requires forall i, k :: 0 <= i < k < |tokens| ==> tokens[i] != tokens[k]
    requires forall i, l :: 0 <= i < |tokens| && l in s.leases ==> l.token != tokens[i]
    ensures var r := Acquire(s, keys, required, tenantId, w, ownerId, tokens);
      && (r.Ok? <==> keys != [] && AllPresent(s, keys, required) && AllFit(s, keys, tenant, w))
      && (r == Err(NoKeys) <==> keys == [])
      && (r == Err(MandatoryPolicyMissing) <==> keys != [] && !AllPresent(s, keys, required))
      && (r.Err? && r.error.CapacityUnavailable? ==>
            exists p :: p in s.policies && Wanted(p, keys) && p.key == r.error.key && !Fits(s, p, tenant, w))
      && r != Err(TokenTaken)
  {
    var rows := Configured(s.policies, set k | k in keys);
    ConfiguredIsPart(s.policies, set k | k in keys);
    PresentRows(s, rows, keys, required);
    FullRow(s, rows, tenant, w);
    assert FreshTokens(s.leases, tokens[..|rows|]);
  }

  lemma PresentRows(s: State, rows: seq<Policy>, keys: seq<string>, required: seq<string>)
    requires forall p :: p in rows <==> p in s.policies && Wanted(p, keys)
    ensures AllPresent(s, keys, required) <==> forall k :: k in required ==> k in Keys(rows)
  {
    if AllPresent(s, keys, required) {
      forall k | k in required ensures k in Keys(rows) {
        var p :| p in s.policies && Wanted(p, keys) && p.key == k;
        assert p in rows;
      }
    } else {
      var k :| k in required && forall p :: p in s.policies && Wanted(p, keys) ==> p.key != k;
      assert k !in Keys(rows);
    }
  }

  lemma FullRow(s: State, rows: seq<Policy>, tenant: string, w: Workload)
    ensures var full := FirstFull(rows, s.leases, s.clock, tenant, w);
      && (full.None? <==> forall p :: p in rows ==> Fits(s, p, tenant, w))
      && (full.Some? ==> exists p :: p in rows && p.key == full.value && !Fits(s, p, tenant, w))
  {
    if rows != [] {
      RoomIsFit(s, rows[0], tenant, w);
      FullRow(s, rows[1..], tenant, w);
      assert rows == [rows[0]] + rows[1..];
    }
  }

  // ------------------------------------------------------------------------
  // What is written
  // ------------------------------------------------------------------------

  /** A lease of the policy for this caller, running for the policy's time from now on. */
  ghost predicate LeaseOf(l: Lease, p: Policy, now: int, tenant: string, w: Workload, ownerId: string) {
    && l.resourceKey == p.key && l.tenantKey == tenant && l.workload == w && l.ownerId == ownerId
    && l.fence == p.nextFence && l.expiresAt == now + p.leaseSeconds * 1_000_000 && l.releasedAt == None
  }

  /** The lease is of an enabled requested policy. */
  ghost predicate LeasedFor(l: Lease, s: State, keys: seq<string>, tenant: string, w: Workload, ownerId: string) {
    exists p :: p in s.policies && Wanted(p, keys) && LeaseOf(l, p, s.clock, tenant, w, ownerId)
  }

  /** A grant only adds leases, one per permit: the k-th is the caller's, under an enabled
      requested policy, with its next fence and the k-th token, and the permit names it. */
  lemma GrantWrites(s: State, keys: seq<string>, required: seq<string>, tenantId: Option<string>, w: Workload,
                    ownerId: string, tokens: seq<string>, tenant: string, k: nat)
    requires DistinctKeys(s.policies) && |tokens| >= |Configured(s.policies, set k | k in keys)| && IsTenant(tenantId, tenant)
    requires Acquire(s, keys, required, tenantId, w, ownerId, tokens).Ok?
    requires k < |Acquire(s, keys, required, tenantId, w, ownerId, tokens).value.1|
    ensures var (s', permits) := Acquire(s, keys, required, tenantId, w, ownerId, tokens).value; var n := |s.leases|;
      && s'.clock == s.clock && |s'.leases| == n + |permits| && s'.leases[..n] == s.leases
      && var l := s'.leases[n + k];
      && LeasedFor(l, s, keys, tenant, w, ownerId) && l.token == tokens[k]
      && permits[k] == Permit(l.resourceKey, l.token, l.fence, l.ownerId)
  {
    var rows := Configured(s.policies, set k | k in keys);
    ConfiguredIsPart(s.policies, set k | k in keys);
    var t, used := AcquiredState(s, keys, required, tenantId, w, ownerId, tokens, rows);
    GrantAppends(s, rows, tenant, w, ownerId, used);
    NewRow(s, rows, keys, tenant, w, ownerId, used, k);
  }

  lemma NewRow(s: State, rows: seq<Policy>, keys: seq<string>, tenant: string, w: Workload, ownerId: string, used: seq<string>, k: nat)
    requires |used| == |rows| && k < |rows| && forall p :: p in rows ==> p in s.policies && Wanted(p, keys)
    ensures var l := NewLeases(rows, s.clock, tenant, w, ownerId, used)[k];
      && LeasedFor(l, s, keys, tenant, w, ownerId) && l.token == used[k]
      && Permit(rows[k].key, used[k], rows[k].nextFence, ownerId) == Permit(l.resourceKey, l.token, l.fence, l.ownerId)
  {
    var l := NewLeases(rows, s.clock, tenant, w, ownerId, used)[k];
    assert rows[k] in rows && LeaseOf(l, rows[k], s.clock, tenant, w, ownerId);
  }

  /** A grant moves the next fence of every enabled requested policy by one, and leaves the
      policies alone otherwise. */
  lemma GrantMovesFences(s: State, keys: seq<string>, required: seq<string>, tenantId: Option<string>, w: Workload,
                         ownerId: string, tokens: seq<string>, i: nat)
    requires DistinctKeys(s.policies) && |tokens| >= |Configured(s.policies, set k | k in keys)| && i < |s.policies|
    requires Acquire(s, keys, required, tenantId, w, ownerId, tokens).Ok?
    ensures var s' := Acquire(s, keys, required, tenantId, w, ownerId, tokens).value.0; var p := s.policies[i];
      && |s'.policies| == |s.policies|
      && s'.policies[i] == if Wanted(p, keys) then p.(nextFence := p.nextFence + 1) else p
  {
    var rows := Configured(s.policies, set k | k in keys);
    ConfiguredIsPart(s.policies, set k | k in keys);
    var tenant, used := AcquiredState(s, keys, required, tenantId, w, ownerId, tokens, rows);
    FenceMoves(s, rows, tenant, w, ownerId, used, i);
    WantedKey(s, rows, keys, i);
  }

  lemma WantedKey(s: State, rows: seq<Policy>, keys: seq<string>, i: nat)
    requires DistinctKeys(s.policies) && i < |s.policies| && forall p :: p in rows <==> p in s.policies && Wanted(p, keys)
    ensures s.policies[i].key in Keys(rows) <==> Wanted(s.policies[i], keys)
  {
    assert s.policies[i] in s.policies;
    if s.policies[i].key in Keys(rows) {
      var p :| p in rows && p.key == s.policies[i].key;
      assert p in s.policies;
    }
  }

  lemma {:induction false} FenceMoves(s: State, granted: seq<Policy>, tenant: string, w: Workload, ownerId: string, tokens: seq<string>, i: nat)
    requires |granted| == |tokens| && DistinctKeys(granted) && i < |s.policies|
    ensures var s' := Grant(s, granted, tenant, w, ownerId, tokens); var p := s.policies[i];
      && |s'.policies| == |s.policies|
      && s'.policies[i] == if p.key in Keys(granted) then p.(nextFence := p.nextFence + 1) else p
    decreases |granted|
  {
    if granted != [] {
      var n := |granted| - 1;
      FenceMoves(s, granted[..n], tenant, w, ownerId, tokens[..n], i);
      LastKey(granted);
    }
  }

  lemma LastKey(granted: seq<Policy>)
    requires granted != [] && DistinctKeys(granted)
    ensures var n := |granted| - 1;
      granted[n].key !in Keys(granted[..n]) && Keys(granted) == Keys(granted[..n]) + {granted[n].key}
  {
    assert granted == granted[..|granted| - 1] + [granted[|granted| - 1]];
  }

  lemma AcquiredState(s: State, keys: seq<string>, required: seq<string>, tenantId: Option<string>, w: Workload,
                      ownerId: string, tokens: seq<string>, rows: seq<Policy>) returns (tenant: string, used: seq<string>)
    requires rows == Configured(s.policies, set k | k in keys) && |tokens| >= |rows|
    requires Acquire(s, keys, required, tenantId, w, ownerId, tokens).Ok?
    ensures |used| == |rows| && used == tokens[..|rows|] && IsTenant(tenantId, tenant)
    ensures var (s', permits) := Acquire(s, keys, required, tenantId, w, ownerId, tokens).value;
      && s' == Grant(s, rows, tenant, w, ownerId, used) && |permits| == |rows|
      && (forall i :: 0 <= i < |rows| ==> permits[i] == Permit(rows[i].key, used[i], rows[i].nextFence, ownerId))
  {
    tenant, used := if tenantId.Some? then tenantId.value else GLOBAL_TENANT, tokens[..|rows|];
  }

  /** A renewal that succeeds moves the expiry of the live leases it presents to the full
      time of their policies from now, and changes nothing else. */
  lemma RenewalWrites(s: State, owned: seq<Permit>, i: nat)
    requires Sound(s) && Renew(s, owned).1 && i < |s.leases|
    ensures var s' := Renew(s, owned).0; var l := s.leases[i];
      && s'.policies == s.policies && s'.clock == s.clock && |s'.leases| == |s.leases|
      && if l.releasedAt == None && s.clock < l.expiresAt && Permit(l.resourceKey, l.token, l.fence, l.ownerId) in owned
         then exists p :: p in s.policies && p.key == l.resourceKey
                          && s'.leases[i] == l.(expiresAt := s.clock + p.leaseSeconds * 1_000_000)
         else s'.leases[i] == l
  {
    JoinedAre(s.leases, owned, s.clock);
    assert Fenced(s.policies, s.leases[i]);
  }

  /** A release sets the time of release in the rows it names, in those that had none. */
  lemma ReleaseWrites(s: State, owned: seq<Permit>, i: nat)
    requires i < |s.leases|
    ensures var s' := Release(s, owned); var l := s.leases[i];
      && s'.policies == s.policies && s'.clock == s.clock && |s'.leases| == |s.leases|
      && if l.releasedAt == None && Permit(l.resourceKey, l.token, l.fence, l.ownerId) in owned
         then s'.leases[i] == l.(releasedAt := Some(s.clock))
         else s'.leases[i] == l
  {
    assert PermitOf(s.leases[i]) == Permit(s.leases[i].resourceKey, s.leases[i].token, s.leases[i].fence, s.leases[i].ownerId);
  }
}
