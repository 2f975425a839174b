/** The governor's transactions as they run over the policy and lease tables. */
module ComputePool {
  import opened Basics
  import opened ComputeGovernor

  lemma PermitsOfFirst(rows: seq<Policy>, tokens: seq<string>, ownerId: string)
    requires |rows| <= |tokens|
    ensures PermitsFor(rows, tokens[..|rows|], ownerId)
         == seq(|rows|, i requires 0 <= i < |rows| => Permit(rows[i].key, tokens[i], rows[i].nextFence, ownerId))
  {
  }

  lemma PermitsNext(rows: seq<Policy>, used: seq<string>, ownerId: string, i: nat)
    requires i < |rows| == |used|
    ensures PermitsFor(rows, used, ownerId)[..i + 1]
         == PermitsFor(rows, used, ownerId)[..i] + [Permit(rows[i].key, used[i], rows[i].nextFence, ownerId)]
  {
  }

  lemma GrantNext(s: State, rows: seq<Policy>, used: seq<string>, i: nat, tenant: string, w: Workload, ownerId: string)
    requires i < |rows| == |used|
    ensures Grant(s, rows[..i + 1], tenant, w, ownerId, used[..i + 1])
         == GrantOne(Grant(s, rows[..i], tenant, w, ownerId, used[..i]), rows[i], tenant, w, ownerId, used[i])
  {
    assert rows[..i + 1][..i] == rows[..i] && used[..i + 1][..i] == used[..i];
  }

  function PermitsFor(rows: seq<Policy>, used: seq<string>, ownerId: string): (r: seq<Permit>)
    requires |rows| == |used|
    ensures |r| == |rows|
  {
    seq(|rows|, i requires 0 <= i < |rows| => Permit(rows[i].key, used[i], rows[i].nextFence, ownerId))
  }

  class LeaseTables {
    var policies: seq<Policy>
    var leases: seq<Lease>
    var clock: int

    function View(): State
      reads this
    {
      State(policies, leases, clock)
    }

    constructor (policies: seq<Policy>, clock: int)
      ensures View() == State(policies, [], clock)
    {
      this.policies, leases, this.clock := policies, [], clock;
    }

    method CountLive(which: Selection) returns (n: nat)
      ensures n == Count(leases, clock, which)
    {
      n := 0;
      for i := 0 to |leases|
        invariant n == Count(leases[..i], clock, which)
      {
        assert leases[..i + 1][..i] == leases[..i];
        if Selects(which, leases[i]) && Live(leases[i], clock) {
          n := n + 1;
        }
      }
      assert leases[..|leases|] == leases;
    }

    method CheckRoom(rows: seq<Policy>, tenant: string, w: Workload) returns (full: Option<string>)
      ensures full == FirstFull(rows, leases, clock, tenant, w)
    {
      for i := 0 to |rows|
        invariant FirstFull(rows[i..], leases, clock, tenant, w) == FirstFull(rows, leases, clock, tenant, w)
      {
        var p := rows[i];
        assert rows[i..][1..] == rows[i + 1..];
        var total := CountLive(OfResource(p.key));
        var ofTenant := CountLive(OfTenant(p.key, tenant));
        if total >= ClassLimit(p, w) || ofTenant >= p.perTenant {
          return Some(p.key);
        }
      }
      full := None;
    }

    /** Every grant is written, or, on a refusal, none. */
    method AcquireAll(keys: seq<string>, required: seq<string>, tenantId: Option<string>, w: Workload, ownerId: string,
                      tokens: seq<string>) returns (r: Result<seq<Permit>, Error>)
      requires |tokens| >= |Configured(policies, set k | k in keys)|
      modifies this
      ensures var spec := Acquire(old(View()), keys, required, tenantId, w, ownerId, tokens);
        match spec
        case Err(e) => r == Err(e) && View() == old(View())
        case Ok((s, permits)) => r == Ok(permits) && View() == s
    {
      if keys == [] { return Err(NoKeys); }
      var tenant := if tenantId.Some? then tenantId.value else GLOBAL_TENANT;
      var rows := Configured(policies, set k | k in keys);
      if exists k :: k in required && k !in Keys(rows) { return Err(MandatoryPolicyMissing); }
      var full := CheckRoom(rows, tenant, w);
      if full.Some? { return Err(CapacityUnavailable(full.value)); }
      if !FreshTokens(leases, tokens[..|rows|]) { return Err(TokenTaken); }
      var permits := GrantAll(rows, tenant, w, ownerId, tokens[..|rows|]);
      PermitsOfFirst(rows, tokens, ownerId);
      r := Ok(permits);
    }

    method GrantAll(rows: seq<Policy>, tenant: string, w: Workload, ownerId: string, used: seq<string>) returns (permits: seq<Permit>)
      requires |used| == |rows|
      modifies this`policies, this`leases
      ensures View() == Grant(old(View()), rows, tenant, w, ownerId, used)
      ensures permits == PermitsFor(rows, used, ownerId)
    {
      ghost var start := View();
      permits := [];
      var i := 0;
      assert rows[..0] == [] && used[..0] == [];
      while i < |rows|
        invariant 0 <= i <= |rows|
        invariant View() == Grant(start, rows[..i], tenant, w, ownerId, used[..i])
        invariant permits == PermitsFor(rows, used, ownerId)[..i]
      {
        GrantNext(start, rows, used, i, tenant, w, ownerId);
        GrantRow(rows[i], tenant, w, ownerId, used[i]);
        PermitsNext(rows, used, ownerId, i);
        permits := permits + [Permit(rows[i].key, used[i], rows[i].nextFence, ownerId)];
        i := i + 1;
      }
      assert rows[..i] == rows && used[..i] == used;
    }

    /** Advances the policy's fence and inserts the lease that takes it. */
    method GrantRow(p: Policy, tenant: string, w: Workload, ownerId: string, token: string)
      modifies this`policies, this`leases
      ensures View() == GrantOne(old(View()), p, tenant, w, ownerId, token)
    {
      policies := TakeFence(policies, p.key);
      leases := leases + [NewLease(p, clock, tenant, w, ownerId, token)];
    }

    method MatchRows(owned: seq<Permit>) returns (rows: seq<nat>)
      ensures rows == Joined(leases, owned, clock)
    {
      rows := [];
      for i := 0 to |owned|
        invariant rows == Joined(leases, owned[..i], clock)
      {
        assert owned[..i + 1][..i] == owned[..i];
        var found: seq<nat> := [];
        for k := 0 to |leases|
          invariant found == LiveRows(leases[..k], owned[i], clock)
        {
          assert leases[..k + 1][..k] == leases[..k];
          if PermitOf(leases[k]) == owned[i] && Live(leases[k], clock) {
            found := found + [k];
          }
        }
        assert leases[..|leases|] == leases;
        rows := rows + found;
      }
      assert owned[..|owned|] == owned;
    }

    method RenewAll(owned: seq<Permit>) returns (renewed: bool)
      modifies this`leases
      ensures (View(), renewed) == Renew(old(View()), owned)
    {
      if owned == [] { return true; }
      var rows := MatchRows(owned);
      if |rows| != |owned| { return false; }
      var ids := AsSet(rows);
      if |Updatable(View(), ids)| != |owned| { return false; }
      ExtendAll(ids);
      renewed := true;
    }

    method ExtendAll(ids: set<nat>)
      modifies this`leases
      ensures View() == ExtendRows(old(View()), ids)
    {
      ghost var start := leases;
      for k := 0 to |leases|
        invariant |leases| == |start|
        invariant forall i :: 0 <= i < |start| ==>
          leases[i] == if i < k && i in ids then Extended(policies, start[i], clock) else start[i]
      {
        if k in ids {
          leases := leases[k := Extended(policies, leases[k], clock)];
        }
      }
    }

    method ReleaseAll(owned: seq<Permit>)
      modifies this`leases
      ensures View() == Release(old(View()), owned)
    {
      ghost var start := leases;
      for k := 0 to |leases|
        invariant |leases| == |start|
        invariant forall i :: 0 <= i < |start| ==> leases[i] == if i < k then ReleasedRow(start[i], owned, clock) else start[i]
      {
        if leases[k].releasedAt.None? && PermitOf(leases[k]) in owned {
          leases := leases[k := leases[k].(releasedAt := Some(clock))];
        }
      }
    }
  }
}
