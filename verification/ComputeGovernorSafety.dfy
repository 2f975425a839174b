/** Capacity, tenant and reserve limits over every run, and what a fence is worth. */
module ComputeGovernorSafety {
  import opened Basics
  import opened ComputeGovernor

  // ------------------------------------------------------------------------
  // Counting
  // ------------------------------------------------------------------------

  lemma CountAppend(leases: seq<Lease>, l: Lease, now: int, which: Selection)
    ensures Count(leases + [l], now, which) == Count(leases, now, which) + if Selects(which, l) && Live(l, now) then 1 else 0
  {
    assert (leases + [l])[..|leases|] == leases;
  }

  /** What one row does to a count when it changes. */
  predicate CountsAt(leases: seq<Lease>, i: nat, now: int, which: Selection)
    requires i < |leases|
  {
    Selects(which, leases[i]) && Live(leases[i], now)
  }

  lemma {:induction false} CountAtMost(a: seq<Lease>, nowA: int, b: seq<Lease>, nowB: int, which: Selection)
    requires |a| == |b|
    requires forall i :: 0 <= i < |a| && CountsAt(a, i, nowA, which) ==> CountsAt(b, i, nowB, which)
    ensures Count(a, nowA, which) <= Count(b, nowB, which)
  {
    if a != [] {
      var n := |a| - 1;
      forall i | 0 <= i < n && CountsAt(a[..n], i, nowA, which) ensures CountsAt(b[..n], i, nowB, which) {
        assert CountsAt(a, i, nowA, which);
      }
      assert CountsAt(a, n, nowA, which) ==> CountsAt(b, n, nowB, which);
      CountAtMost(a[..n], nowA, b[..n], nowB, which);
    }
  }

  lemma {:induction false} PartOfResource(leases: seq<Lease>, now: int, key: string, tenant: string)
    ensures Count(leases, now, OfLowPriority(key)) <= Count(leases, now, OfResource(key))
    ensures Count(leases, now, OfTenant(key, tenant)) <= Count(leases, now, OfResource(key))
  {
    if leases != [] {
      PartOfResource(leases[..|leases| - 1], now, key, tenant);
    }
  }

  // ------------------------------------------------------------------------
  // The invariant
  // ------------------------------------------------------------------------

  ghost predicate WithinLimits(p: Policy, leases: seq<Lease>, now: int) {
    && Count(leases, now, OfResource(p.key)) <= p.capacity
    && Count(leases, now, OfLowPriority(p.key)) <= Max(0, p.capacity - p.reserve)
    && (forall tenant :: Count(leases, now, OfTenant(p.key, tenant)) <= p.perTenant)
  }

  predicate PolicySound(p: Policy) {
    p.capacity > 0 && 0 < p.perTenant <= p.capacity && 0 <= p.reserve <= p.capacity && p.leaseSeconds > 0 && p.nextFence > 0
  }

  ghost predicate PoliciesSound(policies: seq<Policy>) {
    && (forall i :: 0 <= i < |policies| ==> PolicySound(policies[i]))
    && (forall i, k :: 0 <= i < k < |policies| ==> policies[i].key != policies[k].key)
  }

  /** The fence was taken from its policy, which has moved past it. */
  ghost predicate Fenced(policies: seq<Policy>, l: Lease) {
    exists p :: p in policies && p.key == l.resourceKey && 0 < l.fence < p.nextFence
  }

  ghost predicate FencesSound(s: State) {
    && (forall i :: 0 <= i < |s.leases| ==> Fenced(s.policies, s.leases[i]))
    && (forall i, k :: 0 <= i < k < |s.leases| && s.leases[i].resourceKey == s.leases[k].resourceKey ==>
          s.leases[i].fence < s.leases[k].fence)
    && (forall i, k :: 0 <= i < k < |s.leases| ==> s.leases[i].token != s.leases[k].token)
  }

  ghost predicate Sound(s: State) {
    && PoliciesSound(s.policies) && FencesSound(s)
    && (forall i :: 0 <= i < |s.policies| ==> WithinLimits(s.policies[i], s.leases, s.clock))
  }

  /** Only fences move. */
  ghost predicate SameLimits(a: seq<Policy>, b: seq<Policy>) {
    |a| == |b| && forall i :: 0 <= i < |a| ==> b[i].(nextFence := a[i].nextFence) == a[i]
  }

  // ------------------------------------------------------------------------
  // Granting
  // ------------------------------------------------------------------------

  function KeyOf(which: Selection): string {
    match which
    case OfResource(key) => key
    case OfTenant(key, _) => key
    case OfLowPriority(key) => key
  }

  lemma BelowNextFence(policies: seq<Policy>, p: Policy, l: Lease)
    requires PoliciesSound(policies) && p in policies && l.resourceKey == p.key && Fenced(policies, l)
    ensures l.fence < p.nextFence
  {
    var q :| q in policies && q.key == l.resourceKey && 0 < l.fence < q.nextFence;
    SamePolicy(policies, p, q);
  }

  lemma SamePolicy(policies: seq<Policy>, a: Policy, b: Policy)
    requires PoliciesSound(policies) && a in policies && b in policies && a.key == b.key
    ensures a == b
  {
  }

  lemma FencedStays(policies: seq<Policy>, key: string, l: Lease)
    requires Fenced(policies, l)
    ensures Fenced(TakeFence(policies, key), l)
  {
    var q :| q in policies && q.key == l.resourceKey && 0 < l.fence < q.nextFence;
    var k :| 0 <= k < |policies| && policies[k] == q;
    assert TakeFence(policies, key)[k] in TakeFence(policies, key);
  }

  lemma NewestIsFenced(policies: seq<Policy>, p: Policy, l: Lease)
    requires PoliciesSound(policies) && p in policies && l.resourceKey == p.key && l.fence == p.nextFence
    ensures Fenced(TakeFence(policies, p.key), l)
  {
    var k :| 0 <= k < |policies| && policies[k] == p;
    assert TakeFence(policies, p.key)[k] in TakeFence(policies, p.key);
  }

  lemma GrantOneFences(s: State, p: Policy, tenant: string, w: Workload, ownerId: string, token: string)
    requires PoliciesSound(s.policies) && FencesSound(s) && p in s.policies && token !in Tokens(s.leases)
    ensures FencesSound(GrantOne(s, p, tenant, w, ownerId, token))
  {
    var l := NewLease(p, s.clock, tenant, w, ownerId, token);
    forall i | 0 <= i < |s.leases|
      ensures Fenced(TakeFence(s.policies, p.key), s.leases[i]) && s.leases[i].token != token
      ensures s.leases[i].resourceKey == p.key ==> s.leases[i].fence < l.fence
    {
      FencedStays(s.policies, p.key, s.leases[i]);
      assert s.leases[i] in s.leases;
      if s.leases[i].resourceKey == p.key {
        BelowNextFence(s.policies, p, s.leases[i]);
      }
    }
    NewestIsFenced(s.policies, p, l);
    FencesSnoc(s, TakeFence(s.policies, p.key), l);
  }

  lemma FencesSnoc(s: State, policies: seq<Policy>, l: Lease)
    requires FencesSound(s) && Fenced(policies, l)
    requires forall i :: 0 <= i < |s.leases| ==> Fenced(policies, s.leases[i]) && s.leases[i].token != l.token
    requires forall i :: 0 <= i < |s.leases| && s.leases[i].resourceKey == l.resourceKey ==> s.leases[i].fence < l.fence
    ensures FencesSound(s.(policies := policies, leases := s.leases + [l]))
  {
  }

  lemma GrantOneLimits(s: State, p: Policy, tenant: string, w: Workload, ownerId: string, token: string)
    requires Sound(s) && p in s.policies && HasRoom(p, s.leases, s.clock, tenant, w)
    ensures var s' := GrantOne(s, p, tenant, w, ownerId, token);
      forall i :: 0 <= i < |s'.policies| ==> WithinLimits(s'.policies[i], s'.leases, s'.clock)
  {
    var s' := GrantOne(s, p, tenant, w, ownerId, token);
    var l := NewLease(p, s.clock, tenant, w, ownerId, token);
    forall i | 0 <= i < |s'.policies|
      ensures WithinLimits(s'.policies[i], s'.leases, s'.clock)
    {
      var q := s.policies[i];
      assert WithinLimits(q, s.leases, s.clock);
      CountAppend(s.leases, l, s.clock, OfResource(q.key));
      CountAppend(s.leases, l, s.clock, OfLowPriority(q.key));
      PartOfResource(s.leases, s.clock, q.key, tenant);
      forall t ensures Count(s'.leases, s.clock, OfTenant(q.key, t)) <= q.perTenant {
        CountAppend(s.leases, l, s.clock, OfTenant(q.key, t));
        if q.key == p.key {
          SamePolicy(s.policies, p, q);
        }
      }
      if q.key == p.key {
        SamePolicy(s.policies, p, q);
      }
    }
  }

  lemma GrantOneKeepsSound(s: State, p: Policy, tenant: string, w: Workload, ownerId: string, token: string)
    requires Sound(s) && p in s.policies && token !in Tokens(s.leases)
    requires HasRoom(p, s.leases, s.clock, tenant, w)
    ensures Sound(GrantOne(s, p, tenant, w, ownerId, token))
    ensures SameLimits(s.policies, GrantOne(s, p, tenant, w, ownerId, token).policies)
  {
    FenceKeepsPolicies(s.policies, p.key);
    GrantOneFences(s, p, tenant, w, ownerId, token);
    GrantOneLimits(s, p, tenant, w, ownerId, token);
  }

  lemma FenceKeepsPolicies(policies: seq<Policy>, key: string)
    requires PoliciesSound(policies)
    ensures PoliciesSound(TakeFence(policies, key)) && SameLimits(policies, TakeFence(policies, key))
  {
  }

  /** What the grants so far leave alone. */
  ghost predicate Untouched(s: State, s': State, granted: seq<Policy>) {
    && s'.clock == s.clock && SameLimits(s.policies, s'.policies)
    && (forall p :: p in s.policies && p.key !in Keys(granted) ==> p in s'.policies)
    && (forall which :: KeyOf(which) !in Keys(granted) ==>
          Count(s'.leases, s.clock, which) == Count(s.leases, s.clock, which))
  }

  lemma UntouchedByOne(s: State, middle: State, granted: seq<Policy>, p: Policy, tenant: string, w: Workload, ownerId: string, token: string)
    requires Untouched(s, middle, granted) && Tokens(middle.leases) !! {token}
    ensures Untouched(s, GrantOne(middle, p, tenant, w, ownerId, token), granted + [p])
    ensures Tokens(GrantOne(middle, p, tenant, w, ownerId, token).leases) == Tokens(middle.leases) + {token}
  {
    var s' := GrantOne(middle, p, tenant, w, ownerId, token);
    var l := NewLease(p, s.clock, tenant, w, ownerId, token);
    assert p in granted + [p] && forall q :: q in granted ==> q in granted + [p];
    assert Keys(granted) <= Keys(granted + [p]) && p.key in Keys(granted + [p]);
    forall q | q in s.policies && q.key !in Keys(granted + [p])
      ensures q in s'.policies
    {
      var i :| 0 <= i < |middle.policies| && middle.policies[i] == q;
      assert s'.policies[i] == q;
    }
    forall which | KeyOf(which) !in Keys(granted + [p])
      ensures Count(s'.leases, s.clock, which) == Count(s.leases, s.clock, which)
    {
      CountAppend(middle.leases, l, s.clock, which);
    }
    TokensAppend(middle.leases, l);
  }

  lemma TokensAppend(leases: seq<Lease>, l: Lease)
    ensures Tokens(leases + [l]) == Tokens(leases) + {l.token}
  {
    assert forall x :: x in leases ==> x in leases + [l];
    assert l in leases + [l];
  }

  ghost predicate DistinctKeys(policies: seq<Policy>) {
    forall i, k :: 0 <= i < k < |policies| ==> policies[i].key != policies[k].key
  }

  ghost predicate Grantable(s: State, granted: seq<Policy>, tenant: string, w: Workload, tokens: seq<string>) {
    && |granted| == |tokens| && DistinctKeys(granted)
    && (forall i :: 0 <= i < |granted| ==> granted[i] in s.policies && HasRoom(granted[i], s.leases, s.clock, tenant, w))
    && FreshTokens(s.leases, tokens)
  }

  lemma GrantablePrefix(s: State, granted: seq<Policy>, tenant: string, w: Workload, tokens: seq<string>)
    requires Grantable(s, granted, tenant, w, tokens) && granted != []
    ensures var n := |granted| - 1;
      Grantable(s, granted[..n], tenant, w, tokens[..n]) && granted[n].key !in Keys(granted[..n])
  {
  }

  function ToSet(tokens: seq<string>): set<string> {
    set t | t in tokens
  }

  ghost predicate GrantedSoFar(s: State, s': State, granted: seq<Policy>, tokens: seq<string>) {
    Untouched(s, s', granted) && Tokens(s'.leases) == Tokens(s.leases) + ToSet(tokens)
  }

  lemma GrantedOneMore(s: State, middle: State, granted: seq<Policy>, tokens: seq<string>, p: Policy, token: string,
                       tenant: string, w: Workload, ownerId: string)
    requires GrantedSoFar(s, middle, granted, tokens)
    requires token !in Tokens(s.leases) && token !in tokens
    ensures GrantedSoFar(s, GrantOne(middle, p, tenant, w, ownerId, token), granted + [p], tokens + [token])
  {
    UntouchedByOne(s, middle, granted, p, tenant, w, ownerId, token);
    assert ToSet(tokens + [token]) == ToSet(tokens) + {token};
  }

  lemma {:induction false} GrantIsGranted(s: State, granted: seq<Policy>, tenant: string, w: Workload, ownerId: string, tokens: seq<string>)
    requires |granted| == |tokens| && FreshTokens(s.leases, tokens)
    ensures GrantedSoFar(s, Grant(s, granted, tenant, w, ownerId, tokens), granted, tokens)
    decreases |granted|
  {
    if granted == [] {
      assert Tokens(s.leases) == Tokens(s.leases) + ToSet([]);
    } else {
      var n := |granted| - 1;
      FreshPrefix(s.leases, tokens);
      GrantIsGranted(s, granted[..n], tenant, w, ownerId, tokens[..n]);
      GrantedOneMore(s, Grant(s, granted[..n], tenant, w, ownerId, tokens[..n]), granted[..n], tokens[..n], granted[n], tokens[n], tenant, w, ownerId);
      Snoc(granted);
      Snoc(tokens);
    }
  }

  lemma Snoc<T>(s: seq<T>)
    requires s != []
    ensures s[..|s| - 1] + [s[|s| - 1]] == s
  {
  }

  lemma FreshPrefix(leases: seq<Lease>, tokens: seq<string>)
    requires tokens != [] && FreshTokens(leases, tokens)
    ensures var n := |tokens| - 1;
      FreshTokens(leases, tokens[..n]) && tokens[n] !in Tokens(leases) && tokens[n] !in tokens[..n]
  {
  }

  lemma GrantSoundNext(s: State, middle: State, init: seq<Policy>, p: Policy, tokens: seq<string>, token: string,
                       tenant: string, w: Workload, ownerId: string)
    requires GrantedSoFar(s, middle, init, tokens) && Sound(middle)
    requires p in s.policies && p.key !in Keys(init) && HasRoom(p, s.leases, s.clock, tenant, w)
    requires token !in Tokens(s.leases) && token !in tokens
    ensures Sound(GrantOne(middle, p, tenant, w, ownerId, token))
  {
    RoomIsKept(s, middle, init, p, tenant, w);
    GrantOneKeepsSound(middle, p, tenant, w, ownerId, token);
  }

  /** Granting every policy of a set with room keeps the invariant. */
  lemma {:induction false} GrantKeepsSound(s: State, granted: seq<Policy>, tenant: string, w: Workload, ownerId: string, tokens: seq<string>)
    requires Sound(s) && Grantable(s, granted, tenant, w, tokens)
    ensures Sound(Grant(s, granted, tenant, w, ownerId, tokens))
    decreases |granted|
  {
    if granted != [] {
      var n := |granted| - 1;
      GrantablePrefix(s, granted, tenant, w, tokens);
      FreshPrefix(s.leases, tokens);
      GrantKeepsSound(s, granted[..n], tenant, w, ownerId, tokens[..n]);
      GrantIsGranted(s, granted[..n], tenant, w, ownerId, tokens[..n]);
      GrantSoundNext(s, Grant(s, granted[..n], tenant, w, ownerId, tokens[..n]), granted[..n], granted[n], tokens[..n], tokens[n], tenant, w, ownerId);
    }
  }

  lemma RoomIsKept(s: State, middle: State, granted: seq<Policy>, p: Policy, tenant: string, w: Workload)
    requires Untouched(s, middle, granted) && p in s.policies && p.key !in Keys(granted)
    requires HasRoom(p, s.leases, s.clock, tenant, w)
    ensures p in middle.policies && HasRoom(p, middle.leases, middle.clock, tenant, w)
  {
    assert KeyOf(OfResource(p.key)) == p.key && KeyOf(OfTenant(p.key, tenant)) == p.key;
  }

  lemma {:induction false} ConfiguredIsPart(policies: seq<Policy>, keys: set<string>)
    requires DistinctKeys(policies)
    ensures DistinctKeys(Configured(policies, keys))
    ensures forall p :: p in Configured(policies, keys) <==> p in policies && p.enabled && p.key in keys
  {
    if policies != [] {
      var init, last := policies[..|policies| - 1], policies[|policies| - 1];
      ConfiguredIsPart(init, keys);
      assert policies == init + [last];
      var before := Configured(init, keys);
      forall i | 0 <= i < |before| ensures before[i].key != last.key {
        assert before[i] in init;
      }
    }
  }

  lemma {:induction false} NoneFull(policies: seq<Policy>, leases: seq<Lease>, now: int, tenant: string, w: Workload)
    requires FirstFull(policies, leases, now, tenant, w).None?
    ensures forall i :: 0 <= i < |policies| ==> HasRoom(policies[i], leases, now, tenant, w)
  {
    if policies != [] {
      NoneFull(policies[1..], leases, now, tenant, w);
    }
  }

  lemma RoomMeansGrantable(s: State, rows: seq<Policy>, tenant: string, w: Workload, tokens: seq<string>)
    requires DistinctKeys(rows) && (forall p :: p in rows ==> p in s.policies) && |tokens| == |rows|
    requires FirstFull(rows, s.leases, s.clock, tenant, w).None? && FreshTokens(s.leases, tokens)
    ensures Grantable(s, rows, tenant, w, tokens)
  {
    NoneFull(rows, s.leases, s.clock, tenant, w);
    assert forall i :: 0 <= i < |rows| ==> rows[i] in rows;
  }

  lemma AcquireKeepsSound(s: State, keys: seq<string>, required: seq<string>, tenantId: Option<string>, w: Workload,
                          ownerId: string, tokens: seq<string>)
    requires Sound(s) && |tokens| >= |Configured(s.policies, set k | k in keys)|
    requires Acquire(s, keys, required, tenantId, w, ownerId, tokens).Ok?
    ensures var s' := Acquire(s, keys, required, tenantId, w, ownerId, tokens).value.0;
      Sound(s') && SameLimits(s.policies, s'.policies) && s'.clock == s.clock
  {
    var rows := Configured(s.policies, set k | k in keys);
    var tenant := if tenantId.Some? then tenantId.value else GLOBAL_TENANT;
    ConfiguredIsPart(s.policies, set k | k in keys);
    RoomMeansGrantable(s, rows, tenant, w, tokens[..|rows|]);
    GrantKeepsSound(s, rows, tenant, w, ownerId, tokens[..|rows|]);
    GrantIsGranted(s, rows, tenant, w, ownerId, tokens[..|rows|]);
  }

  // ------------------------------------------------------------------------
  // Time, renewal and release
  // ------------------------------------------------------------------------

  /** Rows keep their identity. */
  predicate SameIdentity(a: Lease, b: Lease) {
    b == a.(expiresAt := b.expiresAt, releasedAt := b.releasedAt)
  }

  /** Rows keep their identity and no row comes alive. */
  ghost predicate NoRevival(s: State, s': State) {
    && s'.policies == s.policies && s'.clock >= s.clock && |s'.leases| == |s.leases|
    && (forall i :: 0 <= i < |s.leases| ==> SameIdentity(s.leases[i], s'.leases[i]))
    && (forall i :: 0 <= i < |s.leases| && Live(s'.leases[i], s'.clock) ==> Live(s.leases[i], s.clock))
  }

  lemma NoRevivalKeepsSound(s: State, s': State)
    requires Sound(s) && NoRevival(s, s')
    ensures Sound(s')
  {
    forall i | 0 <= i < |s'.leases| ensures Fenced(s'.policies, s'.leases[i]) {
      assert Fenced(s.policies, s.leases[i]) && SameIdentity(s.leases[i], s'.leases[i]);
    }
    forall i, k | 0 <= i < k < |s'.leases|
      ensures s'.leases[i].token != s'.leases[k].token
      ensures s'.leases[i].resourceKey == s'.leases[k].resourceKey ==> s'.leases[i].fence < s'.leases[k].fence
    {
      assert SameIdentity(s.leases[i], s'.leases[i]) && SameIdentity(s.leases[k], s'.leases[k]);
    }
    forall i | 0 <= i < |s.policies| ensures WithinLimits(s'.policies[i], s'.leases, s'.clock) {
      var p := s.policies[i];
      assert WithinLimits(p, s.leases, s.clock);
      FewerLive(s, s', OfResource(p.key));
      FewerLive(s, s', OfLowPriority(p.key));
      forall t ensures Count(s'.leases, s'.clock, OfTenant(p.key, t)) <= p.perTenant {
        FewerLive(s, s', OfTenant(p.key, t));
      }
    }
  }

  lemma FewerLive(s: State, s': State, which: Selection)
    requires NoRevival(s, s')
    ensures Count(s'.leases, s'.clock, which) <= Count(s.leases, s.clock, which)
  {
    forall i | 0 <= i < |s'.leases| && CountsAt(s'.leases, i, s'.clock, which)
      ensures CountsAt(s.leases, i, s.clock, which)
    {
      assert SameIdentity(s.leases[i], s'.leases[i]);
    }
    CountAtMost(s'.leases, s'.clock, s.leases, s.clock, which);
  }

  lemma {:induction false} LiveRowsAre(leases: seq<Lease>, p: Permit, now: int)
    ensures forall i: nat :: i in LiveRows(leases, p, now) <==> i < |leases| && Matches(leases[i], p) && Live(leases[i], now)
  {
    if leases != [] {
      LiveRowsAre(leases[..|leases| - 1], p, now);
    }
  }

  lemma {:induction false} JoinedAre(leases: seq<Lease>, owned: seq<Permit>, now: int)
    ensures forall i: nat :: i in Joined(leases, owned, now) <==>
      i < |leases| && PermitOf(leases[i]) in owned && Live(leases[i], now)
  {
    if owned != [] {
      var init, last := owned[..|owned| - 1], owned[|owned| - 1];
      JoinedAre(leases, init, now);
      LiveRowsAre(leases, last, now);
      assert owned == init + [last];
    }
  }

  lemma RenewRevivesNothing(s: State, owned: seq<Permit>)
    ensures NoRevival(s, Renew(s, owned).0)
  {
    JoinedAre(s.leases, owned, s.clock);
  }

  lemma ReleaseRevivesNothing(s: State, owned: seq<Permit>)
    ensures NoRevival(s, Release(s, owned))
  {
  }

  lemma ApplyKeepsSound(s: State, op: Op)
    requires Sound(s)
    ensures Sound(Apply(s, op)) && SameLimits(s.policies, Apply(s, op).policies) && Apply(s, op).clock >= s.clock
  {
    match op
    case TimeOp(elapsed) => NoRevivalKeepsSound(s, Apply(s, op));
    case AcquireOp(keys, required, tenantId, w, ownerId, tokens) =>
      if |tokens| >= |Configured(s.policies, set k | k in keys)| && Acquire(s, keys, required, tenantId, w, ownerId, tokens).Ok? {
        AcquireKeepsSound(s, keys, required, tenantId, w, ownerId, tokens);
      }
    case RenewOp(owned) =>
      RenewRevivesNothing(s, owned);
      NoRevivalKeepsSound(s, Apply(s, op));
    case ReleaseOp(owned) =>
      ReleaseRevivesNothing(s, owned);
      NoRevivalKeepsSound(s, Apply(s, op));
  }

  lemma {:induction false} RunKeepsSound(s: State, ops: seq<Op>)
    requires Sound(s)
    ensures Sound(Run(s, ops)) && SameLimits(s.policies, Run(s, ops).policies)
  {
    if ops != [] {
      RunKeepsSound(s, ops[..|ops| - 1]);
      ApplyKeepsSound(Run(s, ops[..|ops| - 1]), ops[|ops| - 1]);
    }
  }

  /** Over every run from an empty lease table: no resource has more live leases than its
      capacity, no tenant more than its share, no low-priority calls in the reserve, and
      fences of a resource rise with every grant. */
  lemma LimitsHoldInEveryRun(s: State, ops: seq<Op>)
    requires Initial(s)
    ensures Sound(Run(s, ops)) && SameLimits(s.policies, Run(s, ops).policies)
  {
    forall i | 0 <= i < |s.policies| ensures WithinLimits(s.policies[i], s.leases, s.clock) {
      assert PolicySound(s.policies[i]);
    }
    RunKeepsSound(s, ops);
  }
}
