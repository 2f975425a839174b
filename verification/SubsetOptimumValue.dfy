/** What a choice of units is worth, stated on the units themselves: which choices are
    allowed, their costs and durations, their longest path of prerequisites and their gain. */
module SubsetOptimumValue {
  import opened Basics
  import opened SubsetOptimum
  import opened SubsetOptimumProof
  import opened SubsetOptimumResult

  // ------------------------------------------------------------------------
  // Choices
  // ------------------------------------------------------------------------

  ghost predicate Picks(u: Unit, units: seq<Unit>, ids: set<string>) {
    u in units && u.id in ids
  }

  ghost predicate Open(u: Unit) {
    u.status in {Pending, Queued, Running}
  }

  ghost predicate Available(units: seq<Unit>, id: string) {
    exists u :: u in units && u.id == id && Open(u)
  }

  ghost predicate Done(units: seq<Unit>, id: string) {
    exists u :: u in units && u.id == id && u.status == Completed
  }

  function KnownPart(value: Option<real>): real {
    if value.Some? then value.value else 0.0
  }

  function CostOf(units: seq<Unit>, ids: set<string>): real {
    if units == [] then 0.0
    else (if units[0].id in ids then KnownPart(units[0].cost) else 0.0) + CostOf(units[1..], ids)
  }

  function DurationOf(units: seq<Unit>, ids: set<string>): real {
    if units == [] then 0.0
    else (if units[0].id in ids then KnownPart(units[0].duration) else 0.0) + DurationOf(units[1..], ids)
  }

  ghost predicate CostsKnown(units: seq<Unit>, ids: set<string>) {
    forall u :: Picks(u, units, ids) ==> u.cost.Some?
  }

  ghost predicate DurationsKnown(units: seq<Unit>, ids: set<string>) {
    forall u :: Picks(u, units, ids) ==> u.duration.Some?
  }

  /** The choice is of open units, has every prerequisite inside or completed, and fits the
      attempts and, if it is known how long it takes, the time. */
  ghost predicate Allowed(data: Data, ids: set<string>) {
    && (forall id :: id in ids ==> Available(data.units, id))
    && (forall u, p :: Picks(u, data.units, ids) && p in u.prerequisites ==> p in ids || Done(data.units, p))
    && |ids| <= data.remainingAttempts
    && (DurationsKnown(data.units, ids) ==> DurationOf(data.units, ids) <= data.remainingMs)
  }

  // ------------------------------------------------------------------------
  // Worth
  // ------------------------------------------------------------------------

  ghost predicate Needs(u: Unit, v: Unit) {
    v.id in u.prerequisites
  }

  ghost predicate NeedsAt(path: seq<Unit>, i: nat)
    requires i + 1 < |path|
  {
    Needs(path[i], path[i + 1])
  }

  /** Units of the choice, each of which needs the next. */
  ghost predicate ChosenPath(units: seq<Unit>, ids: set<string>, path: seq<Unit>) {
    && |path| > 0
    && (forall i :: 0 <= i < |path| ==> Picks(path[i], units, ids))
    && (forall i :: 0 <= i < |path| - 1 ==> NeedsAt(path, i))
  }

  ghost predicate LongestPathIs(units: seq<Unit>, ids: set<string>, n: nat) {
    && (forall path :: ChosenPath(units, ids, path) ==> |path| <= n)
    && (n > 0 ==> exists path :: ChosenPath(units, ids, path) && |path| == n)
  }

  ghost function GainOf(data: Data, ids: set<string>): real {
    if !data.incumbentQualified && exists u :: Picks(u, data.units, ids) && u.verifies then data.lossGap else 0.0
  }

  /** All costs, and a controller call for each of `calls` units. */
  function CostWith(data: Data, ids: set<string>, calls: nat): real {
    CostOf(data.units, ids) + calls as real * data.controllerCallCost
  }

  function DelayOf(data: Data, ids: set<string>): real
    requires data.delayPerMs.Some?
  {
    DurationOf(data.units, ids) * data.delayPerMs.value
  }

  /** The gain, less the costs, less a controller call for each unit of the longest path,
      less the delay of all durations. */
  ghost predicate Worth(data: Data, ids: set<string>, worth: real) {
    && CostsKnown(data.units, ids) && DurationsKnown(data.units, ids) && data.delayPerMs.Some?
    && exists n :: LongestPathIs(data.units, ids, n) && worth == GainOf(data, ids) - CostWith(data, ids, n) - DelayOf(data, ids)
  }

  // ------------------------------------------------------------------------
  // The subset that the loops visit for a choice
  // ------------------------------------------------------------------------

  function SubsetFor(data: Data, ids: set<string>): seq<Unit> {
    Chosen(Eligible(data.units), ids)
  }

  lemma {:induction false} ChosenMembers(units: seq<Unit>, ids: set<string>, u: Unit)
    ensures u in Chosen(units, ids) <==> Picks(u, units, ids)
  {
    if units != [] {
      ChosenMembers(units[1..], ids, u);
      assert u in units <==> u == units[0] || u in units[1..];
    }
  }

  lemma SubsetMembers(data: Data, ids: set<string>, u: Unit)
    requires DistinctIds(data.units) && ids <= Ids(Eligible(data.units))
    ensures u in SubsetFor(data, ids) <==> Picks(u, data.units, ids)
  {
    EligibleIsPart(data.units);
    ChosenMembers(Eligible(data.units), ids, u);
    if Picks(u, data.units, ids) {
      var v :| v in Eligible(data.units) && v.id == u.id;
      SameUnit(data.units, u, v);
    }
  }

  lemma SameUnit(units: seq<Unit>, u: Unit, v: Unit)
    requires DistinctIds(units) && u in units && v in units && u.id == v.id
    ensures u == v
  {
  }

  lemma AvailableExactly(data: Data, ids: set<string>)
    requires DistinctIds(data.units)
    ensures ids <= Ids(Eligible(data.units)) <==> forall id :: id in ids ==> Available(data.units, id)
  {
    EligibleIsPart(data.units);
    forall id ensures id in Ids(Eligible(data.units)) <==> Available(data.units, id) {
      if Available(data.units, id) {
        var u :| u in data.units && u.id == id && Open(u);
        assert u in Eligible(data.units);
      }
    }
  }

  lemma {:induction false} SumFromFront(values: seq<Option<real>>)
    requires values != []
    ensures Sum(values).Some? <==> values[0].Some? && Sum(values[1..]).Some?
    ensures Sum(values).Some? ==> Sum(values).value == values[0].value + Sum(values[1..]).value
  {
    var n := |values| - 1;
    if n == 0 {
      assert values[..0] == [] && values[1..] == [];
    } else {
      SumFromFront(values[..n]);
      assert values[1..][..n - 1] == values[..n][1..];
    }
  }

  lemma {:induction false} SumOfCosts(units: seq<Unit>, ids: set<string>)
    ensures var sum := Sum(Costs(Chosen(units, ids)));
      && (sum.Some? <==> CostsKnown(units, ids)) && (sum.Some? ==> sum.value == CostOf(units, ids))
  {
    if units != [] {
      var c := Chosen(units, ids);
      SumOfCosts(units[1..], ids);
      assert forall u :: u in units <==> u == units[0] || u in units[1..];
      if units[0].id in ids {
        SumFromFront(Costs(c));
        assert c[1..] == Chosen(units[1..], ids) && Costs(c)[1..] == Costs(c[1..]);
        assert Picks(units[0], units, ids);
      }
      CostsOfCons(units, ids);
    }
  }

  lemma CostsOfCons(units: seq<Unit>, ids: set<string>)
    requires units != []
    ensures CostsKnown(units, ids) <==> (units[0].id in ids ==> units[0].cost.Some?) && CostsKnown(units[1..], ids)
    ensures DurationsKnown(units, ids) <==> (units[0].id in ids ==> units[0].duration.Some?) && DurationsKnown(units[1..], ids)
  {
    forall u ensures Picks(u, units, ids) <==> (u == units[0] && u.id in ids) || Picks(u, units[1..], ids) {
      assert u in units <==> u == units[0] || u in units[1..];
    }
  }

  lemma {:induction false} SumOfDurations(units: seq<Unit>, ids: set<string>)
    ensures var sum := Sum(Durations(Chosen(units, ids)));
      && (sum.Some? <==> DurationsKnown(units, ids)) && (sum.Some? ==> sum.value == DurationOf(units, ids))
  {
    if units != [] {
      var c := Chosen(units, ids);
      SumOfDurations(units[1..], ids);
      if units[0].id in ids {
        SumFromFront(Durations(c));
        assert c[1..] == Chosen(units[1..], ids) && Durations(c)[1..] == Durations(c[1..]);
      }
      CostsOfCons(units, ids);
    }
  }

  /** Units that are not open are not in the choice and add nothing. */
  lemma {:induction false} OnlyOpenCount(units: seq<Unit>, ids: set<string>)
    requires forall u :: Picks(u, units, ids) ==> Open(u)
    ensures SameTotals(Eligible(units), units, ids)
  {
    if units != [] {
      var rest := units[1..];
      assert forall u :: Picks(u, rest, ids) ==> Picks(u, units, ids);
      OnlyOpenCount(rest, ids);
      CostsOfCons(units, ids);
      if IsEligible(units[0]) {
        assert Eligible(units)[1..] == Eligible(rest);
        CostsOfCons(Eligible(units), ids);
        SameFirst(Eligible(units), units, ids);
      } else {
        assert !Picks(units[0], units, ids);
      }
    }
  }

  /** Both lists cost, take and leave unknown the same, as far as they are chosen. */
  ghost predicate SameTotals(a: seq<Unit>, b: seq<Unit>, ids: set<string>) {
    && CostOf(a, ids) == CostOf(b, ids) && DurationOf(a, ids) == DurationOf(b, ids)
    && (CostsKnown(a, ids) <==> CostsKnown(b, ids)) && (DurationsKnown(a, ids) <==> DurationsKnown(b, ids))
  }

  lemma SameFirst(a: seq<Unit>, b: seq<Unit>, ids: set<string>)
    requires a != [] && b != [] && a[0] == b[0] && SameTotals(a[1..], b[1..], ids)
    ensures SameTotals(a, b, ids)
  {
    CostsOfCons(a, ids);
    CostsOfCons(b, ids);
  }

  lemma SubsetSums(data: Data, ids: set<string>)
    requires DistinctIds(data.units) && ids <= Ids(Eligible(data.units))
    ensures var costs := Sum(Costs(SubsetFor(data, ids))); var durations := Sum(Durations(SubsetFor(data, ids)));
      && (costs.Some? <==> CostsKnown(data.units, ids)) && (costs.Some? ==> costs.value == CostOf(data.units, ids))
      && (durations.Some? <==> DurationsKnown(data.units, ids))
      && (durations.Some? ==> durations.value == DurationOf(data.units, ids))
  {
    forall u | Picks(u, data.units, ids) ensures Open(u) {
      SubsetMembers(data, ids, u);
      EligibleIsPart(data.units);
    }
    OnlyOpenCount(data.units, ids);
    SumOfCosts(Eligible(data.units), ids);
    SumOfDurations(Eligible(data.units), ids);
  }

  // ------------------------------------------------------------------------
  // Paths and gain
  // ------------------------------------------------------------------------

  lemma PathsAgree(data: Data, ids: set<string>, path: seq<Unit>)
    requires DistinctIds(data.units) && ids <= Ids(Eligible(data.units))
    ensures Path(SubsetFor(data, ids), path) <==> ChosenPath(data.units, ids, path)
  {
    forall u ensures u in SubsetFor(data, ids) <==> Picks(u, data.units, ids) {
      SubsetMembers(data, ids, u);
    }
    forall i | 0 <= i < |path| - 1 ensures RequiresAt(path, i) <==> NeedsAt(path, i) {
    }
  }

  lemma CallsExactly(data: Data, ids: set<string>, n: nat)
    requires DistinctIds(data.units) && ids <= Ids(Eligible(data.units))
    requires Deepest(SubsetFor(data, ids), SubsetFor(data, ids), {}).Some?
    ensures LongestPathIs(data.units, ids, n) <==> Deepest(SubsetFor(data, ids), SubsetFor(data, ids), {}) == Some(n)
  {
    var subset := SubsetFor(data, ids);
    var calls := Deepest(subset, subset, {}).value;
    CallsAreTheLongestPath(subset, calls);
    forall path ensures Path(subset, path) <==> ChosenPath(data.units, ids, path) {
      PathsAgree(data, ids, path);
    }
    LongestOf(data.units, ids, subset, calls, n);
  }

  lemma LongestOf(units: seq<Unit>, ids: set<string>, subset: seq<Unit>, calls: nat, n: nat)
    requires forall path :: Path(subset, path) <==> ChosenPath(units, ids, path)
    requires forall path :: Path(subset, path) ==> |path| <= calls
    requires if subset == [] then calls == 0 else exists path :: Path(subset, path) && |path| == calls
    ensures LongestPathIs(units, ids, n) <==> n == calls
  {
    if subset == [] {
      forall path ensures !ChosenPath(units, ids, path) {
        NoPathInNothing(path);
      }
    } else {
      var longest :| Path(subset, longest) && |longest| == calls;
      assert ChosenPath(units, ids, longest);
    }
  }

  lemma NoPathInNothing(path: seq<Unit>)
    ensures !Path([], path)
  {
    if path != [] {
      assert path[0] !in [];
    }
  }

  lemma TimesIs(a: real, b: real)
    ensures Times(a, b) == a * b
  {
  }

  lemma GainAgrees(data: Data, ids: set<string>)
    requires DistinctIds(data.units) && ids <= Ids(Eligible(data.units))
    ensures Gain(data, SubsetFor(data, ids)) == GainOf(data, ids)
  {
    var subset := SubsetFor(data, ids);
    forall u ensures u in subset <==> Picks(u, data.units, ids) {
      SubsetMembers(data, ids, u);
    }
    if i :| 0 <= i < |subset| && subset[i].verifies {
      assert Picks(subset[i], data.units, ids);
    }
    if u :| Picks(u, data.units, ids) && u.verifies {
      var i :| 0 <= i < |subset| && subset[i] == u;
    }
  }

  lemma ClosedExactly(data: Data, ids: set<string>)
    requires DistinctIds(data.units) && ids <= Ids(Eligible(data.units))
    ensures Closed(SubsetFor(data, ids), CompletedIds(data.units)) <==>
      forall u, p :: Picks(u, data.units, ids) && p in u.prerequisites ==> p in ids || Done(data.units, p)
  {
    var subset := SubsetFor(data, ids);
    ChosenIds(Eligible(data.units), ids);
    assert Ids(subset) == ids;
    forall u ensures u in subset <==> Picks(u, data.units, ids) {
      SubsetMembers(data, ids, u);
    }
    forall p ensures p in CompletedIds(data.units) <==> Done(data.units, p) {
    }
    if Closed(subset, CompletedIds(data.units)) {
      forall u, p | Picks(u, data.units, ids) && p in u.prerequisites ensures p in ids || Done(data.units, p) {
        var i :| 0 <= i < |subset| && subset[i] == u;
        assert p in Ids(subset) + CompletedIds(data.units);
      }
    }
    if forall u, p :: Picks(u, data.units, ids) && p in u.prerequisites ==> p in ids || Done(data.units, p) {
      forall i | 0 <= i < |subset| ensures subset[i].prerequisites <= Ids(subset) + CompletedIds(data.units) {
        assert Picks(subset[i], data.units, ids);
      }
    }
  }

  lemma AllowedExactly(data: Data, ids: set<string>)
    requires DistinctIds(data.units)
    ensures ids <= Ids(Eligible(data.units)) && Admissible(data, SubsetFor(data, ids)) <==> Allowed(data, ids)
  {
    AvailableExactly(data, ids);
    if ids <= Ids(Eligible(data.units)) {
      EligibleIsPart(data.units);
      ClosedExactly(data, ids);
      SubsetSums(data, ids);
      ChosenSize(Eligible(data.units), ids);
      assert ids * Ids(Eligible(data.units)) == ids;
    }
  }

  // ------------------------------------------------------------------------
  // The report
  // ------------------------------------------------------------------------

  /** What a chain of the report shows of its choice. */
  ghost predicate Shows(data: Data, c: Chain) {
    && c.gain == GainOf(data, c.ids)
    && (c.cost.Some? <==> CostsKnown(data.units, c.ids))
    && (c.cost.Some? ==> exists n :: LongestPathIs(data.units, c.ids, n) && c.cost.value == CostWith(data, c.ids, n))
    && (c.delay.Some? <==> DurationsKnown(data.units, c.ids) && data.delayPerMs.Some?)
    && (c.delay.Some? ==> c.delay.value == DelayOf(data, c.ids))
    && (c.net.Some? <==> c.cost.Some? && c.delay.Some?)
    && (c.net.Some? ==> c.net.value == c.gain - c.cost.value - c.delay.value)
  }

  lemma ChainFields(data: Data, ids: set<string>, calls: nat)
    requires DistinctIds(data.units) && ids <= Ids(Eligible(data.units))
    ensures var c := ChainOf(data, SubsetFor(data, ids), calls);
      && c.ids == ids && c.gain == GainOf(data, ids)
      && c.cost == (if CostsKnown(data.units, ids) then Some(CostWith(data, ids, calls)) else None)
      && c.delay == (if DurationsKnown(data.units, ids) && data.delayPerMs.Some? then Some(DelayOf(data, ids)) else None)
      && c.net == (if c.cost.Some? && c.delay.Some? then Some(c.gain - c.cost.value - c.delay.value) else None)
  {
    ChosenIds(Eligible(data.units), ids);
    assert ids * Ids(Eligible(data.units)) == ids;
    GainAgrees(data, ids);
    CostAgrees(data, ids, calls);
    DelayAgrees(data, ids);
  }

  lemma CostAgrees(data: Data, ids: set<string>, calls: nat)
    requires DistinctIds(data.units) && ids <= Ids(Eligible(data.units))
    ensures Cost(data, SubsetFor(data, ids), calls) == if CostsKnown(data.units, ids) then Some(CostWith(data, ids, calls)) else None
  {
    SubsetSums(data, ids);
    TimesIs(calls as real, data.controllerCallCost);
    if CostsKnown(data.units, ids) {
      assert Cost(data, SubsetFor(data, ids), calls).value == CostOf(data.units, ids) + Times(calls as real, data.controllerCallCost);
      assert Cost(data, SubsetFor(data, ids), calls).value == CostWith(data, ids, calls);
    }
  }

  lemma DelayAgrees(data: Data, ids: set<string>)
    requires DistinctIds(data.units) && ids <= Ids(Eligible(data.units))
    ensures Delay(data, SubsetFor(data, ids)) ==
      if DurationsKnown(data.units, ids) && data.delayPerMs.Some? then Some(DelayOf(data, ids)) else None
  {
    SubsetSums(data, ids);
    if data.delayPerMs.Some? {
      TimesIs(DurationOf(data.units, ids), data.delayPerMs.value);
      if DurationsKnown(data.units, ids) {
        assert Delay(data, SubsetFor(data, ids)).value == DelayOf(data, ids);
      }
    }
  }

  lemma ChainShows(data: Data, ids: set<string>, calls: nat)
    requires DistinctIds(data.units) && ids <= Ids(Eligible(data.units))
    requires Deepest(SubsetFor(data, ids), SubsetFor(data, ids), {}) == Some(calls)
    ensures Shows(data, ChainOf(data, SubsetFor(data, ids), calls))
  {
    ChainFields(data, ids, calls);
    CallsExactly(data, ids, calls);
  }

  lemma WorthExactly(data: Data, ids: set<string>, calls: nat, worth: real)
    requires DistinctIds(data.units) && ids <= Ids(Eligible(data.units))
    requires Deepest(SubsetFor(data, ids), SubsetFor(data, ids), {}) == Some(calls)
    ensures Worth(data, ids, worth) <==> ChainOf(data, SubsetFor(data, ids), calls).net == Some(worth)
  {
    ChainFields(data, ids, calls);
    LongestIsCalls(data, ids, calls);
    WorthByCalls(data, ids, calls, worth);
    NetIsWorth(data, ids, calls, worth, ChainOf(data, SubsetFor(data, ids), calls));
  }

  ghost predicate OnlyLongest(data: Data, ids: set<string>, calls: nat) {
    forall n: nat :: LongestPathIs(data.units, ids, n) <==> n == calls
  }

  lemma LongestIsCalls(data: Data, ids: set<string>, calls: nat)
    requires DistinctIds(data.units) && ids <= Ids(Eligible(data.units))
    requires Deepest(SubsetFor(data, ids), SubsetFor(data, ids), {}) == Some(calls)
    ensures OnlyLongest(data, ids, calls)
  {
    forall n: nat ensures LongestPathIs(data.units, ids, n) <==> n == calls {
      CallsExactly(data, ids, n);
    }
  }

  /** What is left of the gain, when all is known. */
  ghost predicate Left(data: Data, ids: set<string>, calls: nat, worth: real) {
    && CostsKnown(data.units, ids) && DurationsKnown(data.units, ids) && data.delayPerMs.Some?
    && worth == GainOf(data, ids) - CostWith(data, ids, calls) - DelayOf(data, ids)
  }

  lemma WorthByCalls(data: Data, ids: set<string>, calls: nat, worth: real)
    requires OnlyLongest(data, ids, calls)
    ensures Worth(data, ids, worth) <==> Left(data, ids, calls, worth)
  {
    assert LongestPathIs(data.units, ids, calls);
  }

  lemma NetIsWorth(data: Data, ids: set<string>, calls: nat, worth: real, c: Chain)
    requires c.gain == GainOf(data, ids)
    requires c.cost == if CostsKnown(data.units, ids) then Some(CostWith(data, ids, calls)) else None
    requires c.delay == if DurationsKnown(data.units, ids) && data.delayPerMs.Some? then Some(DelayOf(data, ids)) else None
    requires c.net == if c.cost.Some? && c.delay.Some? then Some(c.gain - c.cost.value - c.delay.value) else None
    ensures Left(data, ids, calls, worth) <==> c.net == Some(worth)
  {
  }

  /** The report has a chain for exactly the allowed choices, and each shows its gain, its
      costs with the controller calls, its delay and what remains. */
  lemma ReportShowsChoices(data: Data, ids: set<string>)
    requires Reference(data).Some?
    ensures Allowed(data, ids) <==> exists c :: c in Reference(data).value.chains && c.ids == ids
    ensures forall c :: c in Reference(data).value.chains && c.ids == ids ==> Shows(data, c)
  {
    AllowedExactly(data, ids);
    if Allowed(data, ids) {
      AdmissibleIsValued(data, ids);
    }
    forall c | c in Reference(data).value.chains && c.ids == ids ensures Allowed(data, ids) && Shows(data, c) {
      ReportedChains(data, c);
      ChainShows(data, ids, Deepest(SubsetFor(data, ids), SubsetFor(data, ids), {}).value);
    }
  }

  /** The places of the chains without a net value. */
  ghost function Unknowns(chains: seq<Chain>): set<nat> {
    set k: nat | k < |chains| && chains[k].net == None
  }

  /** The report counts the chains whose net value is unknown. */
  lemma UnknownAreCounted(data: Data)
    requires Reference(data).Some?
    ensures Reference(data).value.unknownChains == |Unknowns(Reference(data).value.chains)|
  {
    KnownAreTheOthers(Reference(data).value.chains);
  }

  lemma {:induction false} KnownAreTheOthers(chains: seq<Chain>)
    ensures |chains| - KnownCount(chains) == |Unknowns(chains)|
  {
    if chains == [] {
      assert Unknowns(chains) == {};
    } else {
      var n := |chains| - 1;
      KnownAreTheOthers(chains[..n]);
      assert Unknowns(chains) == Unknowns(chains[..n]) + if chains[n].net == None then {n} else {};
    }
  }

  lemma NetExactly(data: Data, ids: set<string>, worth: real)
    requires Reference(data).Some? && Allowed(data, ids)
    ensures Worth(data, ids, worth) <==> NetOf(data, SubsetFor(data, ids)) == Some(worth)
  {
    AllowedExactly(data, ids);
    AdmissibleIsValued(data, ids);
    var calls := Deepest(SubsetFor(data, ids), SubsetFor(data, ids), {});
    WorthExactly(data, ids, calls.value, worth);
  }

  /** The best value is the greatest worth of an allowed choice (zero when no worth is
      known), and the optimizers are exactly the allowed choices of that worth. */
  lemma BestIsGreatestWorth(data: Data)
    requires Reference(data).Some?
    ensures var r := Reference(data).value;
      && (forall ids, worth :: Allowed(data, ids) && Worth(data, ids, worth) ==> worth <= r.bestNet)
      && (forall ids :: ids in r.optimizers <==> Allowed(data, ids) && Worth(data, ids, r.bestNet))
      && (r.optimizers == [] ==> r.bestNet == 0.0)
  {
    var r := Reference(data).value;
    OptimumIsExact(data);
    forall ids, worth | Allowed(data, ids) && Worth(data, ids, worth) ensures worth <= r.bestNet {
      AllowedExactly(data, ids);
      NetExactly(data, ids, worth);
    }
    forall ids ensures ids in r.optimizers <==> Allowed(data, ids) && Worth(data, ids, r.bestNet) {
      AllowedExactly(data, ids);
      if Allowed(data, ids) {
        NetExactly(data, ids, r.bestNet);
      }
    }
  }

  // ------------------------------------------------------------------------
  // When there is a report
  // ------------------------------------------------------------------------

  /** At most eight units, each with an id of its own and prerequisites among the units. */
  ghost predicate Described(units: seq<Unit>) {
    && |units| <= 8
    && (forall i, k :: 0 <= i < k < |units| ==> units[i].id != units[k].id)
    && (forall u, p :: u in units && p in u.prerequisites ==> exists v :: v in units && v.id == p)
  }

  /** A choice of open units, closed under prerequisites and within the attempts. */
  ghost predicate LookedInto(data: Data, ids: set<string>) {
    && (forall id :: id in ids ==> Available(data.units, id))
    && (forall u, p :: Picks(u, data.units, ids) && p in u.prerequisites ==> p in ids || Done(data.units, p))
    && |ids| <= data.remainingAttempts
  }

  /** Some unit of the choice needs itself through others. */
  ghost predicate GoesRound(units: seq<Unit>, ids: set<string>, path: seq<Unit>) {
    |path| >= 2 && path[0].id == path[|path| - 1].id && ChosenPath(units, ids, path)
  }

  lemma DescribedExactly(data: Data)
    ensures WellFormed(data) <==> Described(data.units)
  {
    if WellFormed(data) {
      forall u, p | u in data.units && p in u.prerequisites ensures exists v :: v in data.units && v.id == p {
        var i :| 0 <= i < |data.units| && data.units[i] == u;
        assert p in Ids(data.units);
      }
    }
  }

  lemma LookedIntoExactly(data: Data, ids: set<string>)
    requires DistinctIds(data.units)
    ensures LookedInto(data, ids) <==>
      && ids <= Ids(Eligible(data.units)) && Closed(SubsetFor(data, ids), CompletedIds(data.units))
      && |SubsetFor(data, ids)| <= data.remainingAttempts
  {
    AvailableExactly(data, ids);
    if ids <= Ids(Eligible(data.units)) {
      EligibleIsPart(data.units);
      ClosedExactly(data, ids);
      ChosenSize(Eligible(data.units), ids);
      assert ids * Ids(Eligible(data.units)) == ids;
    }
  }

  lemma RoundExactly(data: Data, ids: set<string>, path: seq<Unit>)
    requires DistinctIds(data.units) && ids <= Ids(Eligible(data.units))
    ensures Cycle(SubsetFor(data, ids), path) <==> GoesRound(data.units, ids, path)
  {
    PathsAgree(data, ids, path);
  }

  lemma CyclicExactly(data: Data, ids: set<string>)
    requires DistinctIds(data.units)
    ensures CyclicChoice(data, ids) <==> LookedInto(data, ids) && exists path :: GoesRound(data.units, ids, path)
  {
    LookedIntoExactly(data, ids);
    if ids <= Ids(Eligible(data.units)) {
      forall path ensures Cycle(SubsetFor(data, ids), path) <==> GoesRound(data.units, ids, path) {
        RoundExactly(data, ids, path);
      }
    }
  }

  /** There is a report if and only if the units are well described and no choice that the
      loops look into goes round in its prerequisites. */
  lemma ReportedExactly(data: Data)
    ensures Reference(data).Some? <==>
      Described(data.units) && forall ids, path :: LookedInto(data, ids) ==> !GoesRound(data.units, ids, path)
  {
    ReportsExactly(data);
    DescribedExactly(data);
    if Described(data.units) {
      forall ids ensures CyclicChoice(data, ids) <==> LookedInto(data, ids) && exists path :: GoesRound(data.units, ids, path) {
        CyclicExactly(data, ids);
      }
    }
  }
}
