/** What a fence and a token are worth: who can renew, who never can again, what a
    release touches, and what happens when renewal reads its clock twice. */
module ComputeGovernorFences {
  import opened Basics
  import opened ComputeGovernor
  import opened ComputeGovernorSafety

  // ------------------------------------------------------------------------
  // Exactly who can renew
  // ------------------------------------------------------------------------

  ghost predicate HasLiveLease(s: State, p: Permit) {
    exists i :: 0 <= i < |s.leases| && PermitOf(s.leases[i]) == p && Live(s.leases[i], s.clock)
  }

  ghost predicate Distinct(owned: seq<Permit>) {
    forall i, k :: 0 <= i < k < |owned| ==> owned[i] != owned[k]
  }

  ghost predicate AllLive(s: State, owned: seq<Permit>) {
    forall i :: 0 <= i < |owned| ==> HasLiveLease(s, owned[i])
  }

  ghost predicate DistinctTokens(leases: seq<Lease>) {
    forall i, k :: 0 <= i < k < |leases| ==> leases[i].token != leases[k].token
  }

  /** A permit names at most one live row. */
  lemma {:induction false} AtMostOneRow(leases: seq<Lease>, p: Permit, now: int)
    requires DistinctTokens(leases)
    ensures |LiveRows(leases, p, now)| <= 1
    ensures |LiveRows(leases, p, now)| == 1 <==>
      exists i :: 0 <= i < |leases| && PermitOf(leases[i]) == p && Live(leases[i], now)
  {
    if leases != [] {
      var n := |leases| - 1;
      AtMostOneRow(leases[..n], p, now);
      LiveRowsAre(leases[..n], p, now);
      if |LiveRows(leases[..n], p, now)| == 1 {
        var i :| 0 <= i < n && PermitOf(leases[..n][i]) == p && Live(leases[..n][i], now);
        assert leases[i].token == p.token;
      }
      if Matches(leases[n], p) && Live(leases[n], now) {
        assert PermitOf(leases[n]) == p;
      }
    }
  }

  /** The joined rows are as many as the permits exactly when the permits are distinct and
      all live. */
  lemma {:induction false} JoinedCount(s: State, owned: seq<Permit>)
    requires DistinctTokens(s.leases)
    ensures |AsSet(Joined(s.leases, owned, s.clock))| <= |owned|
    ensures |AsSet(Joined(s.leases, owned, s.clock))| == |owned| <==> Distinct(owned) && AllLive(s, owned)
    ensures AllLive(s, owned) ==> |Joined(s.leases, owned, s.clock)| == |owned|
    decreases |owned|
  {
    if owned == [] {
      assert AsSet([]) == {};
    } else {
      var n := |owned| - 1;
      var init, last := owned[..n], owned[n];
      JoinedCount(s, init);
      AtMostOneRow(s.leases, last, s.clock);
      LiveRowsAre(s.leases, last, s.clock);
      JoinedAre(s.leases, init, s.clock);
      var before, rows := Joined(s.leases, init, s.clock), LiveRows(s.leases, last, s.clock);
      Snoc(owned);
      LastRow(s, before, rows, init, last);
      LastDistinct(s, owned);
      JoinedSnoc(s, owned, init, last, before, rows);
    }
  }

  lemma AsSetConcat(a: seq<nat>, b: seq<nat>)
    ensures AsSet(a + b) == AsSet(a) + AsSet(b)
  {
  }

  lemma JoinedSnoc(s: State, owned: seq<Permit>, init: seq<Permit>, last: Permit, before: seq<nat>, rows: seq<nat>)
    requires owned == init + [last] && |rows| <= 1 && (|rows| == 1 <==> HasLiveLease(s, last))
    requires before == Joined(s.leases, init, s.clock) && rows == LiveRows(s.leases, last, s.clock)
    requires |AsSet(before)| <= |init| && (|AsSet(before)| == |init| <==> Distinct(init) && AllLive(s, init))
    requires AllLive(s, init) ==> |before| == |init|
    requires |AsSet(before) + AsSet(rows)| == |AsSet(before)| + if HasLiveLease(s, last) && last !in init then 1 else 0
    requires Distinct(owned) <==> Distinct(init) && last !in init
    requires AllLive(s, owned) <==> AllLive(s, init) && HasLiveLease(s, last)
    ensures |AsSet(Joined(s.leases, owned, s.clock))| <= |owned|
    ensures |AsSet(Joined(s.leases, owned, s.clock))| == |owned| <==> Distinct(owned) && AllLive(s, owned)
    ensures AllLive(s, owned) ==> |Joined(s.leases, owned, s.clock)| == |owned|
  {
    assert owned[..|owned| - 1] == init && owned[|owned| - 1] == last;
    assert Joined(s.leases, owned, s.clock) == before + rows;
    AsSetConcat(before, rows);
  }

  lemma LastDistinct(s: State, owned: seq<Permit>)
    requires owned != []
    ensures var n := |owned| - 1;
      && (Distinct(owned) <==> Distinct(owned[..n]) && owned[n] !in owned[..n])
      && (AllLive(s, owned) <==> AllLive(s, owned[..n]) && HasLiveLease(s, owned[n]))
  {
    var n := |owned| - 1;
    if AllLive(s, owned) {
      forall i | 0 <= i < n ensures HasLiveLease(s, owned[..n][i]) {
        assert HasLiveLease(s, owned[i]);
      }
    }
    if AllLive(s, owned[..n]) && HasLiveLease(s, owned[n]) {
      forall i | 0 <= i <= n ensures HasLiveLease(s, owned[i]) {
        assert i < n ==> HasLiveLease(s, owned[..n][i]);
      }
    }
  }

  lemma LastRow(s: State, before: seq<nat>, rows: seq<nat>, init: seq<Permit>, last: Permit)
    requires |rows| <= 1 && (|rows| == 1 <==> HasLiveLease(s, last))
    requires forall i: nat :: i in rows <==> i < |s.leases| && Matches(s.leases[i], last) && Live(s.leases[i], s.clock)
    requires forall i: nat :: i in before <==> i < |s.leases| && PermitOf(s.leases[i]) in init && Live(s.leases[i], s.clock)
    ensures |AsSet(before) + AsSet(rows)| ==
      |AsSet(before)| + if HasLiveLease(s, last) && last !in init then 1 else 0
  {
    if |rows| == 1 {
      var r := rows[0];
      assert r in rows && AsSet(rows) == {r};
      if last in init {
        assert AsSet(before) + {r} == AsSet(before);
      } else {
        assert r !in AsSet(before);
      }
    } else {
      assert AsSet(rows) == {} && AsSet(before) + {} == AsSet(before);
    }
  }

  lemma AllUpdatable(s: State, rows: set<nat>)
    requires Sound(s) && forall i :: i in rows ==> i < |s.leases|
    ensures Updatable(s, rows) == rows
  {
    forall i | i in rows
      ensures FindPolicy(s.policies, s.leases[i].resourceKey).Some?
    {
      assert Fenced(s.policies, s.leases[i]);
    }
  }

  /** A renewal succeeds exactly when its permits are pairwise distinct and every one of
      them names a live lease; one dead member, or one permit presented twice, fails the
      set and changes nothing. */
  lemma RenewSucceedsExactly(s: State, owned: seq<Permit>)
    requires Sound(s)
    ensures Renew(s, owned).1 <==> Distinct(owned) && AllLive(s, owned)
    ensures !Renew(s, owned).1 ==> Renew(s, owned).0 == s
  {
    var rows := Joined(s.leases, owned, s.clock);
    JoinedCount(s, owned);
    JoinedAre(s.leases, owned, s.clock);
    AllUpdatable(s, AsSet(rows));
  }

  // ------------------------------------------------------------------------
  // Acquire grants all
  // ------------------------------------------------------------------------

  function NewLeases(rows: seq<Policy>, now: int, tenant: string, w: Workload, ownerId: string, tokens: seq<string>): seq<Lease>
    requires |rows| == |tokens|
  {
    seq(|rows|, i requires 0 <= i < |rows| => NewLease(rows[i], now, tenant, w, ownerId, tokens[i]))
  }

  lemma {:induction false} GrantAppends(s: State, granted: seq<Policy>, tenant: string, w: Workload, ownerId: string, tokens: seq<string>)
    requires |granted| == |tokens|
    ensures Grant(s, granted, tenant, w, ownerId, tokens).clock == s.clock
    ensures Grant(s, granted, tenant, w, ownerId, tokens).leases
         == s.leases + NewLeases(granted, s.clock, tenant, w, ownerId, tokens)
  {
    if granted != [] {
      var n := |granted| - 1;
      GrantAppends(s, granted[..n], tenant, w, ownerId, tokens[..n]);
    }
  }

  /** What a successful acquire does to the lease table. */
  lemma AcquiredRows(s: State, keys: seq<string>, required: seq<string>, tenantId: Option<string>, w: Workload,
                     ownerId: string, tokens: seq<string>, rows: seq<Policy>)
    returns (tenant: string, used: seq<string>)
    requires rows == Configured(s.policies, set k | k in keys) && |tokens| >= |rows|
    requires Acquire(s, keys, required, tenantId, w, ownerId, tokens).Ok?
    ensures |used| == |rows| && FreshTokens(s.leases, used)
    ensures var (s', permits) := Acquire(s, keys, required, tenantId, w, ownerId, tokens).value;
      && s'.clock == s.clock && s'.leases == s.leases + NewLeases(rows, s.clock, tenant, w, ownerId, used)
      && |permits| == |rows|
      && (forall i :: 0 <= i < |rows| ==> permits[i] == Permit(rows[i].key, used[i], rows[i].nextFence, ownerId))
      && (forall k :: k in required ==> k in Keys(rows))
  {
    tenant := if tenantId.Some? then tenantId.value else GLOBAL_TENANT;
    used := tokens[..|rows|];
    GrantAppends(s, rows, tenant, w, ownerId, used);
  }

  function PermitKeys(permits: seq<Permit>): set<string> {
    set p | p in permits :: p.resourceKey
  }

  /** The requested keys that have an enabled policy. */
  function EnabledKeys(policies: seq<Policy>, keys: seq<string>): set<string> {
    set p | p in policies && p.enabled && p.key in keys :: p.key
  }

  /** What a grant of some policies adds to the table. */
  ghost predicate Granted(s: State, s': State, rows: seq<Policy>, permits: seq<Permit>) {
    && |permits| == |rows| && s'.clock == s.clock && |s'.leases| == |s.leases| + |rows| && s.leases <= s'.leases
    && (forall i :: 0 <= i < |rows| ==> GrantedAt(s, s', rows, permits, i))
  }

  ghost predicate GrantedAt(s: State, s': State, rows: seq<Policy>, permits: seq<Permit>, i: nat)
    requires i < |rows| == |permits| && |s'.leases| == |s.leases| + |rows|
  {
    && rows[i] in s.policies
    && PermitOf(s'.leases[|s.leases| + i]) == permits[i] && permits[i].resourceKey == rows[i].key
    && Live(s'.leases[|s.leases| + i], s.clock)
  }

  /** A successful acquire grants a permit for every requested key with an enabled policy,
      every mandatory one among them; the new fences are above all earlier ones of their
      resource; and the set is renewable at once. */
  lemma GrantIsComplete(s: State, keys: seq<string>, required: seq<string>, tenantId: Option<string>, w: Workload,
                        ownerId: string, tokens: seq<string>)
    requires Sound(s) && |tokens| >= |Configured(s.policies, set k | k in keys)|
    requires Acquire(s, keys, required, tenantId, w, ownerId, tokens).Ok?
    ensures var (s', permits) := Acquire(s, keys, required, tenantId, w, ownerId, tokens).value;
      && PermitKeys(permits) == EnabledKeys(s.policies, keys)
      && (forall k :: k in required ==> k in PermitKeys(permits))
      && |s'.leases| == |s.leases| + |permits| && s.leases <= s'.leases
      && (forall p, l :: p in permits && l in s.leases && l.resourceKey == p.resourceKey ==> l.fence < p.fence)
      && Renew(s', permits).1
  {
    var rows := Configured(s.policies, set k | k in keys);
    var (s', permits) := Acquire(s, keys, required, tenantId, w, ownerId, tokens).value;
    var tenant, used := AcquiredRows(s, keys, required, tenantId, w, ownerId, tokens, rows);
    AcquireKeepsSound(s, keys, required, tenantId, w, ownerId, tokens);
    ConfiguredIsPart(s.policies, set k | k in keys);
    GrantedRows(s, s', rows, permits, tenant, w, ownerId, used);
    KeysGranted(s, s', rows, permits, keys);
    FencesAbove(s, s', rows, permits);
    RenewableAtOnce(s, s', rows, permits);
  }

  lemma GrantedRows(s: State, s': State, rows: seq<Policy>, permits: seq<Permit>, tenant: string, w: Workload,
                    ownerId: string, used: seq<string>)
    requires PoliciesSound(s.policies) && (forall p :: p in rows ==> p in s.policies)
    requires |used| == |rows| == |permits| && s'.clock == s.clock
    requires s'.leases == s.leases + NewLeases(rows, s.clock, tenant, w, ownerId, used)
    requires forall i :: 0 <= i < |rows| ==> permits[i] == Permit(rows[i].key, used[i], rows[i].nextFence, ownerId)
    ensures Granted(s, s', rows, permits)
  {
    forall i | 0 <= i < |rows| ensures GrantedAt(s, s', rows, permits, i) {
      assert rows[i] in rows && PolicySound(rows[i]);
      assert s'.leases[|s.leases| + i] == NewLease(rows[i], s.clock, tenant, w, ownerId, used[i]);
    }
  }

  lemma FencesAbove(s: State, s': State, rows: seq<Policy>, permits: seq<Permit>)
    requires Granted(s, s', rows, permits) && Sound(s')
    ensures forall p, l :: p in permits && l in s.leases && l.resourceKey == p.resourceKey ==> l.fence < p.fence
  {
    forall p, l | p in permits && l in s.leases && l.resourceKey == p.resourceKey
      ensures l.fence < p.fence
    {
      var i :| 0 <= i < |permits| && permits[i] == p;
      assert GrantedAt(s, s', rows, permits, i);
      var k :| 0 <= k < |s.leases| && s.leases[k] == l;
      assert s'.leases[k] == l;
    }
  }

  lemma RenewableAtOnce(s: State, s': State, rows: seq<Policy>, permits: seq<Permit>)
    requires Granted(s, s', rows, permits) && Sound(s')
    ensures Renew(s', permits).1
  {
    var n := |s.leases|;
    forall i | 0 <= i < |permits| ensures HasLiveLease(s', permits[i]) {
      assert GrantedAt(s, s', rows, permits, i);
      assert PermitOf(s'.leases[n + i]) == permits[i];
    }
    forall i, k | 0 <= i < k < |permits| ensures permits[i] != permits[k] {
      assert GrantedAt(s, s', rows, permits, i) && GrantedAt(s, s', rows, permits, k);
      assert s'.leases[n + i].token != s'.leases[n + k].token;
    }
    RenewSucceedsExactly(s', permits);
  }

  lemma KeysGranted(s: State, s': State, rows: seq<Policy>, permits: seq<Permit>, keys: seq<string>)
    requires Granted(s, s', rows, permits)
    requires forall p :: p in rows <==> p in s.policies && p.enabled && p.key in (set k | k in keys)
    ensures PermitKeys(permits) == EnabledKeys(s.policies, keys) == Keys(rows)
  {
    forall i | 0 <= i < |rows| ensures permits[i].resourceKey == rows[i].key {
      assert GrantedAt(s, s', rows, permits, i);
    }
    SameKeysPaired(rows, permits);
    forall key ensures key in EnabledKeys(s.policies, keys) <==> key in Keys(rows) {
    }
  }

  lemma SameKeysPaired(rows: seq<Policy>, permits: seq<Permit>)
    requires |rows| == |permits| && forall i :: 0 <= i < |rows| ==> permits[i].resourceKey == rows[i].key
    ensures PermitKeys(permits) == Keys(rows)
  {
    forall key | key in PermitKeys(permits) ensures key in Keys(rows) {
      PermitHasRow(rows, permits, key);
    }
    forall key | key in Keys(rows) ensures key in PermitKeys(permits) {
      RowHasPermit(rows, permits, key);
    }
  }

  lemma PermitHasRow(rows: seq<Policy>, permits: seq<Permit>, key: string)
    requires |rows| == |permits| && forall i :: 0 <= i < |rows| ==> permits[i].resourceKey == rows[i].key
    requires key in PermitKeys(permits)
    ensures key in Keys(rows)
  {
    var p :| p in permits && p.resourceKey == key;
    var i :| 0 <= i < |permits| && permits[i] == p;
    assert rows[i] in rows && rows[i].key == key;
  }

  lemma RowHasPermit(rows: seq<Policy>, permits: seq<Permit>, key: string)
    requires |rows| == |permits| && forall i :: 0 <= i < |rows| ==> permits[i].resourceKey == rows[i].key
    requires key in Keys(rows)
    ensures key in PermitKeys(permits)
  {
    var r :| r in rows && r.key == key;
    var i :| 0 <= i < |rows| && rows[i] == r;
    assert permits[i] in permits && permits[i].resourceKey == key;
  }

  // ------------------------------------------------------------------------
  // Dead permits stay dead
  // ------------------------------------------------------------------------

  /** The token was given out, and its lease is released or expired. */
  ghost predicate Dead(s: State, token: string) {
    && token in Tokens(s.leases)
    && forall i :: 0 <= i < |s.leases| && s.leases[i].token == token ==> !Live(s.leases[i], s.clock)
  }

  lemma TokensKept(a: seq<Lease>, b: seq<Lease>, token: string)
    requires |a| <= |b| && forall i :: 0 <= i < |a| ==> SameIdentity(a[i], b[i])
    requires token in Tokens(a)
    ensures token in Tokens(b)
  {
    var l :| l in a && l.token == token;
    var i :| 0 <= i < |a| && a[i] == l;
    assert b[i] in b && b[i].token == token;
  }

  lemma NoRevivalKeepsDead(s: State, s': State, token: string)
    requires NoRevival(s, s') && Dead(s, token)
    ensures Dead(s', token)
  {
    TokensKept(s.leases, s'.leases, token);
    forall i | 0 <= i < |s'.leases| && s'.leases[i].token == token
      ensures !Live(s'.leases[i], s'.clock)
    {
      assert SameIdentity(s.leases[i], s'.leases[i]);
    }
  }

  lemma NewRowsKeepDead(s: State, s': State, added: seq<Lease>, token: string)
    requires s'.clock == s.clock && s'.leases == s.leases + added && Dead(s, token)
    requires forall i :: 0 <= i < |added| ==> added[i].token != token
    ensures Dead(s', token)
  {
    TokensKept(s.leases, s'.leases, token);
    assert forall i :: |s.leases| <= i < |s'.leases| ==> s'.leases[i] == added[i - |s.leases|];
  }

  lemma AcquireKeepsDead(s: State, op: Op, token: string)
    requires op.AcquireOp? && Dead(s, token)
    ensures Dead(Apply(s, op), token)
  {
    var rows := Configured(s.policies, set k | k in op.keys);
    if |op.tokens| >= |rows|
       && Acquire(s, op.keys, op.required, op.tenantId, op.workload, op.ownerId, op.tokens).Ok?
    {
      var tenant, used := AcquiredRows(s, op.keys, op.required, op.tenantId, op.workload, op.ownerId, op.tokens, rows);
      NewRowsKeepDead(s, Apply(s, op), NewLeases(rows, s.clock, tenant, op.workload, op.ownerId, used), token);
    }
  }

  lemma {:induction false} RunKeepsDead(s: State, ops: seq<Op>, token: string)
    requires Dead(s, token)
    ensures Dead(Run(s, ops), token)
  {
    if ops != [] {
      var before, op := Run(s, ops[..|ops| - 1]), ops[|ops| - 1];
      RunKeepsDead(s, ops[..|ops| - 1], token);
      match op
      case TimeOp(_) => NoRevivalKeepsDead(before, Apply(before, op), token);
      case AcquireOp(_, _, _, _, _, _) => AcquireKeepsDead(before, op, token);
      case RenewOp(owned) =>
        RenewRevivesNothing(before, owned);
        NoRevivalKeepsDead(before, Apply(before, op), token);
      case ReleaseOp(owned) =>
        ReleaseRevivesNothing(before, owned);
        NoRevivalKeepsDead(before, Apply(before, op), token);
    }
  }

  /** A released or expired lease never renews again, whatever happens in between, and
      takes every set it is presented in down with it. */
  lemma DeadNeverRenews(s: State, ops: seq<Op>, owned: seq<Permit>, dead: Permit)
    requires Sound(s) && Dead(s, dead.token) && dead in owned
    ensures Renew(Run(s, ops), owned) == (Run(s, ops), false)
  {
    var now := Run(s, ops);
    RunKeepsDead(s, ops, dead.token);
    RunKeepsSound(s, ops);
    RenewSucceedsExactly(now, owned);
    DeadHasNoLive(now, dead);
    var i :| 0 <= i < |owned| && owned[i] == dead;
    assert !HasLiveLease(now, owned[i]);
  }

  lemma DeadHasNoLive(s: State, p: Permit)
    requires Dead(s, p.token)
    ensures !HasLiveLease(s, p)
  {
  }

  /** A release ends the leases that its permits name and touches no other row. */
  lemma ReleaseEndsOnlyItsOwn(s: State, owned: seq<Permit>)
    requires Sound(s)
    ensures var s' := Release(s, owned);
      && |s'.leases| == |s.leases| && s'.policies == s.policies
      && (forall i :: 0 <= i < |s.leases| && PermitOf(s.leases[i]) !in owned ==> s'.leases[i] == s.leases[i])
      && (forall i :: 0 <= i < |s.leases| && PermitOf(s.leases[i]) in owned ==> Dead(s', s.leases[i].token))
  {
    forall i | 0 <= i < |s.leases| && PermitOf(s.leases[i]) in owned
      ensures Dead(Release(s, owned), s.leases[i].token)
    {
      ReleasedIsDead(s, owned, i);
    }
  }

  lemma ReleasedIsDead(s: State, owned: seq<Permit>, i: nat)
    requires FencesSound(s) && i < |s.leases| && PermitOf(s.leases[i]) in owned
    ensures Dead(Release(s, owned), s.leases[i].token)
  {
    var s' := Release(s, owned);
    assert s'.leases[i] in s'.leases && s'.leases[i].token == s.leases[i].token;
    forall k | 0 <= k < |s'.leases| && s'.leases[k].token == s.leases[i].token
      ensures !Live(s'.leases[k], s'.clock)
    {
      assert s.leases[k].token == s.leases[i].token;
      assert k == i;
    }
  }

  // ------------------------------------------------------------------------
  // Renewal with two clock readings
  // ------------------------------------------------------------------------

  /** Rows of the set that had lapsed and come alive when the second statement runs. */
  function Revived(leases: seq<Lease>, rows: set<nat>, now: int, which: Selection): nat {
    if leases == [] then 0
    else
      var n := |leases| - 1;
      Revived(leases[..n], rows, now, which)
      + if n in rows && Selects(which, leases[n]) && leases[n].releasedAt.None? && leases[n].expiresAt <= now then 1 else 0
  }

  ghost predicate SecondStatement(before: seq<Lease>, after: seq<Lease>, rows: set<nat>, now: int) {
    && |before| == |after|
    && (forall i :: 0 <= i < |before| ==> SameIdentity(before[i], after[i]) && after[i].releasedAt == before[i].releasedAt)
    && (forall i :: 0 <= i < |before| && i !in rows ==> after[i] == before[i])
    && (forall i :: 0 <= i < |before| && i in rows ==> after[i].expiresAt > now)
  }

  lemma {:induction false} SecondStatementCounts(before: seq<Lease>, after: seq<Lease>, rows: set<nat>, now: int, which: Selection)
    requires SecondStatement(before, after, rows, now)
    ensures Count(after, now, which) == Count(before, now, which) + Revived(before, rows, now, which)
  {
    if before != [] {
      var n := |before| - 1;
      assert SecondStatement(before[..n], after[..n], rows, now);
      SecondStatementCounts(before[..n], after[..n], rows, now, which);
      assert SameIdentity(before[n], after[n]);
    }
  }

  /** Between matching its rows and extending them, a renewal holds no policy lock. When it
      extends them in state `s` (rows matched earlier, perhaps lapsed since, and their
      capacity perhaps granted to others), the count of a resource grows by exactly the
      lapsed rows it revives. */
  lemma SplitRenewalCounts(s: State, rows: set<nat>, which: Selection)
    requires Sound(s) && forall i :: i in rows ==> i < |s.leases|
    ensures Count(ExtendRows(s, rows).leases, s.clock, which)
         == Count(s.leases, s.clock, which) + Revived(s.leases, rows, s.clock, which)
  {
    var after := ExtendRows(s, rows).leases;
    forall i | 0 <= i < |s.leases| && i in rows
      ensures after[i].expiresAt > s.clock
    {
      assert Fenced(s.policies, s.leases[i]);
      assert FindPolicy(s.policies, s.leases[i].resourceKey).Some?;
      var p := FindPolicy(s.policies, s.leases[i].resourceKey).value;
      assert PolicySound(p);
    }
    SecondStatementCounts(s.leases, after, rows, s.clock, which);
  }

  /** There is room for the lapsed rows under all three limits of the policy. */
  ghost predicate RevivedFit(s: State, rows: set<nat>, p: Policy) {
    && Count(s.leases, s.clock, OfResource(p.key)) + Revived(s.leases, rows, s.clock, OfResource(p.key)) <= p.capacity
    && Count(s.leases, s.clock, OfLowPriority(p.key)) + Revived(s.leases, rows, s.clock, OfLowPriority(p.key))
         <= Max(0, p.capacity - p.reserve)
    && (forall tenant :: Count(s.leases, s.clock, OfTenant(p.key, tenant)) + Revived(s.leases, rows, s.clock, OfTenant(p.key, tenant))
          <= p.perTenant)
  }

  lemma SplitRenewalPolicy(s: State, rows: set<nat>, p: Policy)
    requires Sound(s) && forall i :: i in rows ==> i < |s.leases|
    ensures WithinLimits(p, ExtendRows(s, rows).leases, s.clock) <==> RevivedFit(s, rows, p)
  {
    SplitRenewalCounts(s, rows, OfResource(p.key));
    SplitRenewalCounts(s, rows, OfLowPriority(p.key));
    forall tenant
      ensures Count(ExtendRows(s, rows).leases, s.clock, OfTenant(p.key, tenant))
        == Count(s.leases, s.clock, OfTenant(p.key, tenant)) + Revived(s.leases, rows, s.clock, OfTenant(p.key, tenant))
    {
      SplitRenewalCounts(s, rows, OfTenant(p.key, tenant));
    }
  }

  /** So the split renewal keeps every limit exactly when there is room for what it revives. */
  lemma SplitRenewalSafeExactly(s: State, rows: set<nat>)
    requires Sound(s) && forall i :: i in rows ==> i < |s.leases|
    ensures Sound(ExtendRows(s, rows)) <==> forall p :: p in s.policies ==> RevivedFit(s, rows, p)
  {
    var s' := ExtendRows(s, rows);
    forall p ensures WithinLimits(p, s'.leases, s.clock) <==> RevivedFit(s, rows, p) {
      SplitRenewalPolicy(s, rows, p);
    }
    assert forall i :: 0 <= i < |s.policies| ==> s.policies[i] in s.policies;
    assert forall i :: 0 <= i < |s.leases| ==> SameIdentity(s.leases[i], s'.leases[i]);
    SameIdentitiesKeepFences(s, s');
  }

  lemma SameIdentitiesKeepFences(s: State, s': State)
    requires FencesSound(s) && s'.policies == s.policies && |s'.leases| == |s.leases|
    requires forall i :: 0 <= i < |s.leases| ==> SameIdentity(s.leases[i], s'.leases[i])
    ensures FencesSound(s')
  {
    forall i | 0 <= i < |s'.leases| ensures Fenced(s'.policies, s'.leases[i]) {
      assert Fenced(s.policies, s.leases[i]);
    }
  }

  /** While no matched row has lapsed by the second reading, the split changes nothing. */
  lemma SplitRenewalIsSafeWhileLive(s: State, rows: set<nat>)
    requires Sound(s) && forall i :: i in rows ==> i < |s.leases| && Live(s.leases[i], s.clock)
    ensures Sound(ExtendRows(s, rows))
  {
    assert NoRevival(s, ExtendRows(s, rows));
    NoRevivalKeepsSound(s, ExtendRows(s, rows));
  }

  const MODEL := "model:global"
  const ONE_PLACE := Policy(MODEL, 1, 1, 0, 60, 1, true)
  const LAPSE := 60 * SECOND

  function Held(ownerId: string, token: string, fence: int, start: int): Lease {
    NewLease(ONE_PLACE.(nextFence := fence), start, GLOBAL_TENANT, Realtime, ownerId, token)
  }

  /** The one place is granted, and its lease is matched just before it lapses. */
  function JustBeforeLapse(): State {
    Apply(Apply(State([ONE_PLACE], [], 0), AcquireOp([MODEL], [], None, Realtime, "a", ["t1"])), TimeOp(LAPSE - 1))
  }

  /** A tick later the place is granted again. */
  function GrantedAgain(): State {
    Apply(Apply(JustBeforeLapse(), TimeOp(1)), AcquireOp([MODEL], [], None, Realtime, "b", ["t2"]))
  }

  lemma FirstGrant()
    ensures JustBeforeLapse() == State([ONE_PLACE.(nextFence := 2)], [Held("a", "t1", 1, 0)], LAPSE - 1)
  {
    OneGrant(State([ONE_PLACE], [], 0), ONE_PLACE, Realtime, "a", "t1");
  }

  lemma LapsedHasRoom(l: Lease, p: Policy, token: string)
    requires l.resourceKey == MODEL && l.expiresAt == LAPSE && p.key == MODEL && p.capacity == 1 && p.perTenant == 1
    requires token != l.token
    ensures HasRoom(p, [l], LAPSE, GLOBAL_TENANT, Realtime) && token !in Tokens([l])
  {
    assert [] + [l] == [l];
    CountAppend([], l, LAPSE, OfResource(MODEL));
    CountAppend([], l, LAPSE, OfTenant(MODEL, GLOBAL_TENANT));
  }

  lemma SecondGrant()
    ensures GrantedAgain() == State([ONE_PLACE.(nextFence := 3)], [Held("a", "t1", 1, 0), Held("b", "t2", 2, LAPSE)], LAPSE)
  {
    FirstGrant();
    var first, p := Held("a", "t1", 1, 0), ONE_PLACE.(nextFence := 2);
    LapsedHasRoom(first, p, "t2");
    OneGrant(State([p], [first], LAPSE), p, Realtime, "b", "t2");
    assert [first] + [Held("b", "t2", 2, LAPSE)] == [first, Held("b", "t2", 2, LAPSE)];
  }

  /** A resource with one place, in a moment when its only lease lapses between the two
      readings and the place is granted again: two live leases. */
  lemma SplitRenewalOverbooks()
    ensures Initial(State([ONE_PLACE], [], 0))
    ensures AsSet(Joined(JustBeforeLapse().leases, [Permit(MODEL, "t1", 1, "a")], JustBeforeLapse().clock)) == {0}
    ensures Count(ExtendRows(GrantedAgain(), {0}).leases, LAPSE, OfResource(MODEL)) == 2
  {
    FirstGrant();
    SecondGrant();
    var first, second := Held("a", "t1", 1, 0), Held("b", "t2", 2, LAPSE);
    OneRowMatches(first, LAPSE - 1);
    FirstIsExtended(GrantedAgain(), ONE_PLACE.(nextFence := 3), first, second);
    TwoLive(first.(expiresAt := 2 * LAPSE), second, LAPSE);
  }

  lemma OneRowMatches(l: Lease, now: int)
    requires Live(l, now)
    ensures AsSet(Joined([l], [PermitOf(l)], now)) == {0}
  {
    JoinedAre([l], [PermitOf(l)], now);
    assert [l][0] == l && [PermitOf(l)][0] == PermitOf(l);
  }

  lemma FirstIsExtended(s: State, p: Policy, first: Lease, second: Lease)
    requires s.policies == [p] && s.leases == [first, second] && first.resourceKey == p.key
    ensures ExtendRows(s, {0}).leases == [first.(expiresAt := s.clock + p.leaseSeconds * SECOND), second]
  {
    OnlyPolicy(p);
    var after := ExtendRows(s, {0}).leases;
    assert after[0] == Extended(s.policies, first, s.clock) && after[1] == second;
  }

  lemma OnlyPolicy(p: Policy)
    ensures FindPolicy([p], p.key) == Some(p)
  {
  }

  lemma TwoLive(first: Lease, second: Lease, now: int)
    requires Live(first, now) && Live(second, now) && first.resourceKey == second.resourceKey
    ensures Count([first, second], now, OfResource(first.resourceKey)) == 2
  {
    var which := OfResource(first.resourceKey);
    assert [] + [first] == [first] && [first] + [second] == [first, second];
    CountAppend([], first, now, which);
    CountAppend([first], second, now, which);
  }

  lemma OneKey(key: string)
    ensures (set k | k in [key]) == {key}
  {
  }

  lemma OneConfigured(p: Policy)
    requires p.enabled
    ensures Configured([p], {p.key}) == [p]
  {
    assert [p][..0] == [];
  }

  /** Acquire where nothing stands in the way. */
  lemma AcquireUnhindered(s: State, keys: seq<string>, rows: seq<Policy>, w: Workload, ownerId: string, tokens: seq<string>)
    requires keys != [] && rows == Configured(s.policies, set k | k in keys) && |tokens| == |rows|
    requires FirstFull(rows, s.leases, s.clock, GLOBAL_TENANT, w).None? && FreshTokens(s.leases, tokens)
    ensures Acquire(s, keys, [], None, w, ownerId, tokens).Ok?
    ensures Acquire(s, keys, [], None, w, ownerId, tokens).value.0 == Grant(s, rows, GLOBAL_TENANT, w, ownerId, tokens)
  {
    assert tokens[..|rows|] == tokens;
  }

  lemma AcquireGrants(s: State, keys: seq<string>, rows: seq<Policy>, w: Workload, ownerId: string, tokens: seq<string>)
    requires keys != [] && rows == Configured(s.policies, set k | k in keys) && |tokens| == |rows|
    requires FirstFull(rows, s.leases, s.clock, GLOBAL_TENANT, w).None? && FreshTokens(s.leases, tokens)
    ensures Apply(s, AcquireOp(keys, [], None, w, ownerId, tokens)) == Grant(s, rows, GLOBAL_TENANT, w, ownerId, tokens)
  {
    AcquireUnhindered(s, keys, rows, w, ownerId, tokens);
  }

  lemma GrantSingle(s: State, p: Policy, w: Workload, ownerId: string, token: string)
    requires s.policies == [p]
    ensures Grant(s, [p], GLOBAL_TENANT, w, ownerId, [token])
         == State([p.(nextFence := p.nextFence + 1)], s.leases + [NewLease(p, s.clock, GLOBAL_TENANT, w, ownerId, token)], s.clock)
  {
    assert [p][..0] == [] && [token][..0] == [];
    assert TakeFence([p], p.key) == [p.(nextFence := p.nextFence + 1)];
  }

  lemma OneFresh(leases: seq<Lease>, token: string)
    requires token !in Tokens(leases)
    ensures FreshTokens(leases, [token])
  {
  }

  lemma OneGrant(s: State, p: Policy, w: Workload, ownerId: string, token: string)
    requires s.policies == [p] && p.enabled && token !in Tokens(s.leases)
    requires HasRoom(p, s.leases, s.clock, GLOBAL_TENANT, w)
    ensures Apply(s, AcquireOp([p.key], [], None, w, ownerId, [token]))
         == State([p.(nextFence := p.nextFence + 1)], s.leases + [NewLease(p, s.clock, GLOBAL_TENANT, w, ownerId, token)], s.clock)
  {
    OneKey(p.key);
    OneConfigured(p);
    OneFresh(s.leases, token);
    OneHasRoom(p, s.leases, s.clock, w);
    AcquireGrants(s, [p.key], [p], w, ownerId, [token]);
    GrantSingle(s, p, w, ownerId, token);
  }

  lemma OneHasRoom(p: Policy, leases: seq<Lease>, now: int, w: Workload)
    requires HasRoom(p, leases, now, GLOBAL_TENANT, w)
    ensures FirstFull([p], leases, now, GLOBAL_TENANT, w).None?
  {
    assert [p][1..] == [];
  }
}
