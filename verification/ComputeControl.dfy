/** The singleton control lease (finnor-os/packages/db/compute-control.ts): one row per
    lease name, taken over only after it expires, fenced by a counter. Times are
    microseconds, the resolution of the clock the statements read. */
module ComputeControl {
  import opened Basics

  datatype Row = Row(ownerId: string, token: string, fence: int, acquiredAt: int, expiresAt: int)
  datatype Lease = Lease(name: string, ownerId: string, token: string, fence: int)
  datatype State = State(rows: map<string, Row>, clock: int)
  datatype Error = InvalidEnvelope | ConstraintViolated

  const SECOND := 1_000_000

  /** Another lease's row holds the token; the column is unique. */
  predicate TokenHeldElsewhere(rows: map<string, Row>, name: string, token: string) {
    exists n :: n in rows && n != name && rows[n].token == token
  }

  /** Inserts the row, or takes an expired one over with the next fence; None while
      somebody holds it. */
  function Acquire(s: State, name: string, ownerId: string, ttl: int, token: string): Result<(State, Option<Lease>), Error> {
    if name == "" || ownerId == "" || ttl < 15 || ttl > 3600 then Err(InvalidEnvelope)
    else if name in s.rows && s.rows[name].expiresAt > s.clock then Ok((s, None))
    else if TokenHeldElsewhere(s.rows, name, token) then Err(ConstraintViolated)
    else
      var fence := if name in s.rows then s.rows[name].fence + 1 else 1;
      Ok((s.(rows := s.rows[name := Row(ownerId, token, fence, s.clock, s.clock + ttl * SECOND)]),
          Some(Lease(name, ownerId, token, fence))))
  }

  predicate Names(s: State, l: Lease) {
    && l.name in s.rows
    && var row := s.rows[l.name]; row.ownerId == l.ownerId && row.token == l.token && row.fence == l.fence
  }

  /** The lease could be renewed now. */
  predicate Holds(s: State, l: Lease) {
    Names(s, l) && s.rows[l.name].expiresAt > s.clock
  }

  /** The row's check keeps the expiry behind the acquisition. */
  function Renew(s: State, l: Lease, ttl: int): Result<(State, bool), Error> {
    if !Holds(s, l) then Ok((s, false))
    else if s.clock + ttl * SECOND <= s.rows[l.name].acquiredAt then Err(ConstraintViolated)
    else Ok((s.(rows := s.rows[l.name := s.rows[l.name].(expiresAt := s.clock + ttl * SECOND)]), true))
  }

  function Later(a: int, b: int): int {
    if a < b then b else a
  }

  function Release(s: State, l: Lease): (State, bool) {
    if !Names(s, l) then (s, false)
    else
      var row := s.rows[l.name];
      (s.(rows := s.rows[l.name := row.(expiresAt := Later(s.clock, row.acquiredAt + 1))]), true)
  }

  datatype Op =
    | TimeOp(elapsed: nat)
    | AcquireOp(name: string, ownerId: string, ttl: int, token: string)
    | RenewOp(lease: Lease, renewTtl: int)
    | ReleaseOp(lease: Lease)

  function Apply(s: State, op: Op): State {
    match op
    case TimeOp(elapsed) => s.(clock := s.clock + elapsed)
    case AcquireOp(name, ownerId, ttl, token) =>
      var r := Acquire(s, name, ownerId, ttl, token);
      if r.Ok? then r.value.0 else s
    case RenewOp(l, ttl) =>
      var r := Renew(s, l, ttl);
      if r.Ok? then r.value.0 else s
    case ReleaseOp(l) => Release(s, l).0
  }

  function Run(s: State, ops: seq<Op>): State {
    if ops == [] then s else Apply(Run(s, ops[..|ops| - 1]), ops[|ops| - 1])
  }

  // ------------------------------------------------------------------------
  // Fences
  // ------------------------------------------------------------------------

  function FenceOf(s: State, name: string): int {
    if name in s.rows then s.rows[name].fence else 0
  }

  /** No row was acquired in the future. */
  ghost predicate Sound(s: State) {
    forall n :: n in s.rows ==> s.rows[n].acquiredAt <= s.clock && s.rows[n].fence >= 1
  }

  lemma {:induction false} RunKeepsSound(s: State, ops: seq<Op>)
    requires Sound(s)
    ensures Sound(Run(s, ops))
  {
    if ops != [] {
      RunKeepsSound(s, ops[..|ops| - 1]);
    }
  }

  lemma {:induction false} FencesNeverFall(s: State, ops: seq<Op>, name: string)
    requires Sound(s)
    ensures FenceOf(s, name) <= FenceOf(Run(s, ops), name)
    ensures s.clock <= Run(s, ops).clock
  {
    if ops != [] {
      FencesNeverFall(s, ops[..|ops| - 1], name);
      RunKeepsSound(s, ops[..|ops| - 1]);
    }
  }

  /** Two acquisitions of a name, however far apart: the later fence is higher. */
  lemma LaterAcquisitionHasHigherFence(s: State, name: string, owner1: string, ttl1: int, token1: string, between: seq<Op>,
                                       owner2: string, ttl2: int, token2: string)
    requires Sound(s)
    requires Acquire(s, name, owner1, ttl1, token1).Ok? && Acquire(s, name, owner1, ttl1, token1).value.1.Some?
    requires var s2 := Run(Acquire(s, name, owner1, ttl1, token1).value.0, between);
      Acquire(s2, name, owner2, ttl2, token2).Ok? && Acquire(s2, name, owner2, ttl2, token2).value.1.Some?
    ensures
      var first := Acquire(s, name, owner1, ttl1, token1).value;
      var second := Acquire(Run(first.0, between), name, owner2, ttl2, token2).value;
      && FenceOf(s, name) < first.1.value.fence < second.1.value.fence
      && Holds(second.0, second.1.value) && !Names(second.0, first.1.value)
  {
    var s1 := Acquire(s, name, owner1, ttl1, token1).value.0;
    FencesNeverFall(s1, between, name);
  }

  // ------------------------------------------------------------------------
  // Superseded and ended leases
  // ------------------------------------------------------------------------

  /** The lease was overtaken by a higher fence, or is the current one and has expired. */
  predicate Ended(s: State, l: Lease) {
    && l.name in s.rows && l.fence <= s.rows[l.name].fence
    && (l.fence == s.rows[l.name].fence ==> s.rows[l.name].expiresAt <= s.clock || !Names(s, l))
  }

  lemma ApplyKeepsEnded(s: State, op: Op, l: Lease)
    requires Sound(s) && Ended(s, l)
    requires op.ReleaseOp? && op.lease.name == l.name && Names(s, op.lease) ==> s.rows[l.name].acquiredAt < s.clock
    ensures Ended(Apply(s, op), l)
  {
  }

  /** Every release happens at least one clock tick after its lease was acquired. */
  predicate NoInstantRelease(s: State, ops: seq<Op>) {
    if ops == [] then true
    else
      var before, op := Run(s, ops[..|ops| - 1]), ops[|ops| - 1];
      && NoInstantRelease(s, ops[..|ops| - 1])
      && (op.ReleaseOp? && Names(before, op.lease) ==> before.rows[op.lease.name].acquiredAt < before.clock)
  }

  /** An ended lease never renews again, and releasing it never takes anything from its
      successor. */
  lemma {:induction false} EndedStaysEnded(s: State, ops: seq<Op>, l: Lease)
    requires Sound(s) && Ended(s, l) && NoInstantRelease(s, ops)
    ensures Ended(Run(s, ops), l)
    ensures !Holds(Run(s, ops), l)
    ensures forall ttl :: Renew(Run(s, ops), l, ttl) == Ok((Run(s, ops), false))
    ensures forall other: Lease :: Holds(Run(s, ops), other) && NoInstantRelease(Run(s, ops), [ReleaseOp(l)]) ==>
      Holds(Release(Run(s, ops), l).0, other)
  {
    if ops != [] {
      var before, op := Run(s, ops[..|ops| - 1]), ops[|ops| - 1];
      EndedStaysEnded(s, ops[..|ops| - 1], l);
      RunKeepsSound(s, ops[..|ops| - 1]);
      ApplyKeepsEnded(before, op, l);
    }
  }

  /** A release sets the expiry to the later of now and one microsecond after the
      acquisition. So the released lease can still renew in the very tick it was acquired
      in, and only then: it has ended exactly when the clock has moved since. */
  lemma ReleaseEndsTheLeaseExactly(s: State, l: Lease, ttl: int)
    requires Sound(s) && Names(s, l) && ttl > 0
    ensures var released := Release(s, l).0;
      && (Ended(released, l) <==> s.rows[l.name].acquiredAt < s.clock)
      && (Renew(released, l, ttl).Ok? && Renew(released, l, ttl).value.1 <==> s.rows[l.name].acquiredAt == s.clock)
      && Ended(Apply(released, TimeOp(1)), l)
  {
  }

  /** A fresh lease, released in its first tick, renewed in the same tick. */
  lemma InstantReleaseIsUndone()
    ensures
      var s := Acquire(State(map[], 0), "scheduler", "a", 90, "t").value.0;
      var l := Lease("scheduler", "a", "t", 1);
      var s' := Apply(Release(s, l).0, RenewOp(l, 90));
      Release(s, l).1 && Holds(s', l) && s'.rows["scheduler"].expiresAt == 90 * SECOND
  {
  }

  // ------------------------------------------------------------------------
  // What the statements answer and write
  // ------------------------------------------------------------------------

  /** A name, an owner and a life of fifteen seconds to an hour. */
  ghost predicate Proper(name: string, ownerId: string, ttl: int) {
    name != "" && ownerId != "" && 15 <= ttl <= 3600
  }

  /** A proper request is granted exactly when nobody holds the name and no other name's row
      has its token; the first lease of a name has fence 1 and each later one the next. The
      row is then the caller's, from now for the asked time, and no other row changes. */
  lemma AcquiredExactly(s: State, name: string, ownerId: string, ttl: int, token: string)
    ensures var r := Acquire(s, name, ownerId, ttl, token);
      var held := name in s.rows && s.clock < s.rows[name].expiresAt;
      var taken := exists other :: other in s.rows && other != name && s.rows[other].token == token;
      && (r == Err(InvalidEnvelope) <==> !Proper(name, ownerId, ttl))
      && (r == Ok((s, None)) <==> Proper(name, ownerId, ttl) && held)
      && (r == Err(ConstraintViolated) <==> Proper(name, ownerId, ttl) && !held && taken)
      && (Proper(name, ownerId, ttl) && !held && !taken ==>
            && r.Ok? && r.value.1.Some? && r.value.0.clock == s.clock
            && var l := r.value.1.value;
            && l == Lease(name, ownerId, token, if name in s.rows then s.rows[name].fence + 1 else 1)
            && r.value.0.rows == s.rows[name := Row(ownerId, token, l.fence, s.clock, s.clock + ttl * 1_000_000)])
  {
    assert TokenHeldElsewhere(s.rows, name, token) <==>
      exists other :: other in s.rows && other != name && s.rows[other].token == token;
  }

  /** The row of the lease's name is its owner's, with its token and its fence. */
  ghost predicate IsNamed(row: Row, l: Lease) {
    row.ownerId == l.ownerId && row.token == l.token && row.fence == l.fence
  }

  /** A lease is renewed exactly while its row names it and has not expired, and the new
      expiry, the asked time from now, is behind its acquisition; only the expiry changes. */
  lemma RenewedExactly(s: State, l: Lease, ttl: int)
    ensures var r := Renew(s, l, ttl);
      var held := l.name in s.rows && IsNamed(s.rows[l.name], l) && s.clock < s.rows[l.name].expiresAt;
      && (!held <==> r == Ok((s, false)))
      && (held ==>
            var expiry := s.clock + ttl * 1_000_000;
            if expiry > s.rows[l.name].acquiredAt
            then r == Ok((s.(rows := s.rows[l.name := s.rows[l.name].(expiresAt := expiry)]), true))
            else r == Err(ConstraintViolated))
  {
    assert Holds(s, l) <==> l.name in s.rows && IsNamed(s.rows[l.name], l) && s.clock < s.rows[l.name].expiresAt;
  }

  /** A release answers true exactly when the row names the lease, expired or not; it sets the
      expiry to now, or just behind an acquisition in this very tick, and nothing else. */
  lemma ReleasedExactly(s: State, l: Lease)
    requires Sound(s)
    ensures var (s', done) := Release(s, l);
      && (done <==> l.name in s.rows && IsNamed(s.rows[l.name], l))
      && (!done ==> s' == s)
      && (done ==>
            var row := s.rows[l.name];
            s' == s.(rows := s.rows[l.name := row.(expiresAt := if row.acquiredAt == s.clock then s.clock + 1 else s.clock)]))
  {
    assert Names(s, l) <==> l.name in s.rows && IsNamed(s.rows[l.name], l);
  }

  // ------------------------------------------------------------------------
  // One holder
  // ------------------------------------------------------------------------

  function Elapsed(ops: seq<Op>): nat {
    if ops == [] then 0
    else Elapsed(ops[..|ops| - 1]) + if ops[|ops| - 1].TimeOp? then ops[|ops| - 1].elapsed else 0
  }

  /** Neither renewed nor released by its own holder. */
  predicate LeftAlone(ops: seq<Op>, l: Lease) {
    forall i :: 0 <= i < |ops| ==> (ops[i].RenewOp? || ops[i].ReleaseOp?) ==> ops[i].lease != l
  }

  /** From an acquisition until its time is up, whatever everybody else tries, the lease is
      held by the one who acquired it, and nobody else can acquire or renew it. */
  lemma {:induction false} HeldUntilExpiry(s: State, name: string, ownerId: string, ttl: int, token: string, others: seq<Op>)
    requires Acquire(s, name, ownerId, ttl, token).Ok? && Acquire(s, name, ownerId, ttl, token).value.1.Some?
    requires LeftAlone(others, Acquire(s, name, ownerId, ttl, token).value.1.value)
    requires Elapsed(others) < ttl * SECOND
    ensures
      var (s1, l) := Acquire(s, name, ownerId, ttl, token).value;
      var now := Run(s1, others);
      && Holds(now, l.value) && now.rows[name] == s1.rows[name] && now.clock == s.clock + Elapsed(others)
      && (forall rival :: Holds(now, rival) && rival.name == name ==> rival == l.value)
      && (forall who, t, tok :: Acquire(now, name, who, t, tok).Ok? ==> Acquire(now, name, who, t, tok).value.1 == None)
  {
    if others != [] {
      var n := |others| - 1;
      HeldUntilExpiry(s, name, ownerId, ttl, token, others[..n]);
      var op := others[n];
      assert LeftAlone([op], Acquire(s, name, ownerId, ttl, token).value.1.value);
    }
  }

  // ------------------------------------------------------------------------
  // The statements as they run
  // ------------------------------------------------------------------------

  class ControlTable {
    var rows: map<string, Row>
    var clock: int

    function View(): State
      reads this
    {
      State(rows, clock)
    }

    constructor (clock: int)
      ensures View() == State(map[], clock)
    {
      rows, this.clock := map[], clock;
    }

    method AcquireLease(name: string, ownerId: string, ttl: int, token: string) returns (r: Result<Option<Lease>, Error>)
      modifies this`rows
      ensures var spec := Acquire(old(View()), name, ownerId, ttl, token);
        match spec
        case Err(e) => r == Err(e) && View() == old(View())
        case Ok((s, l)) => r == Ok(l) && View() == s
    {
      if name == "" || ownerId == "" || ttl < 15 || ttl > 3600 { return Err(InvalidEnvelope); }
      var fence := 1;
      if name in rows {
        if rows[name].expiresAt > clock { return Ok(None); }
        fence := rows[name].fence + 1;
      }
      if TokenHeldElsewhere(rows, name, token) { return Err(ConstraintViolated); }
      rows := rows[name := Row(ownerId, token, fence, clock, clock + ttl * SECOND)];
      r := Ok(Some(Lease(name, ownerId, token, fence)));
    }

    method RenewLease(l: Lease, ttl: int) returns (r: Result<bool, Error>)
      modifies this`rows
      ensures var spec := Renew(old(View()), l, ttl);
        match spec
        case Err(e) => r == Err(e) && View() == old(View())
        case Ok((s, done)) => r == Ok(done) && View() == s
    {
      if !Holds(View(), l) { return Ok(false); }
      if clock + ttl * SECOND <= rows[l.name].acquiredAt { return Err(ConstraintViolated); }
      rows := rows[l.name := rows[l.name].(expiresAt := clock + ttl * SECOND)];
      r := Ok(true);
    }

    method ReleaseLease(l: Lease) returns (released: bool)
      modifies this`rows
      ensures (View(), released) == Release(old(View()), l)
    {
      released := Names(View(), l);
      if released {
        rows := rows[l.name := rows[l.name].(expiresAt := Later(clock, rows[l.name].acquiredAt + 1))];
      }
    }
  }
}
