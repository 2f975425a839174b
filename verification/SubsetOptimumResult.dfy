/** What the report says about the subsets, how it moves with the budgets, and the loop
    that computes it. */
module SubsetOptimumResult {
  import opened Basics
  import opened SubsetOptimum
  import opened SubsetOptimumProof

  // ------------------------------------------------------------------------
  // The report and the subsets
  // ------------------------------------------------------------------------

  /** A subset that may be executed: nothing it requires is missing, and it fits the attempts
      and, as far as its duration is known, the time. */
  predicate Admissible(data: Data, subset: seq<Unit>) {
    Closed(subset, CompletedIds(data.units)) && |subset| <= data.remainingAttempts && !OverTime(data, subset)
  }

  /** Its known net value. */
  function NetOf(data: Data, subset: seq<Unit>): Option<real> {
    var calls := Deepest(subset, subset, {});
    if calls.None? then None else ChainOf(data, subset, calls.value).net
  }

  lemma {:induction false} ChainHasSubset(data: Data, subsets: seq<seq<Unit>>, c: Chain) returns (i: nat)
    requires Chains(data, subsets).Some? && c in Chains(data, subsets).value
    ensures i < |subsets| && Value(data, subsets[i]) == Kept(c)
    decreases |subsets|
  {
    var n := |subsets| - 1;
    if c in Chains(data, subsets[..n]).value {
      i := ChainHasSubset(data, subsets[..n], c);
    } else {
      i := n;
    }
  }

  lemma {:induction false} SubsetHasChain(data: Data, subsets: seq<seq<Unit>>, i: nat)
    requires Chains(data, subsets).Some? && i < |subsets|
    ensures !Value(data, subsets[i]).Cyclic?
    ensures Value(data, subsets[i]).Kept? ==> Value(data, subsets[i]).chain in Chains(data, subsets).value
    decreases |subsets|
  {
    var n := |subsets| - 1;
    if i < n {
      SubsetHasChain(data, subsets[..n], i);
    }
  }

  lemma {:induction false} KnownAre(chains: seq<Chain>)
    ensures forall c :: c in Known(chains) <==> c in chains && c.net.Some?
  {
    if chains != [] {
      KnownAre(chains[..|chains| - 1]);
      assert chains == chains[..|chains| - 1] + [chains[|chains| - 1]];
    }
  }

  lemma {:induction false} BestOfIsMax(known: seq<Chain>)
    requires known != [] && forall i :: 0 <= i < |known| ==> known[i].net.Some?
    ensures forall i :: 0 <= i < |known| ==> known[i].net.value <= BestOf(known)
    ensures exists i :: 0 <= i < |known| && known[i].net.value == BestOf(known)
  {
    var n := |known| - 1;
    if n > 0 {
      BestOfIsMax(known[..n]);
      var i :| 0 <= i < n && known[..n][i].net.value == BestOf(known[..n]);
      if known[n].net.value > BestOf(known[..n]) {
        assert known[n].net.value == BestOf(known);
      } else {
        assert known[i].net.value == BestOf(known);
      }
    } else {
      assert known[0].net.value == BestOf(known);
    }
  }

  lemma BestIsMax(chains: seq<Chain>)
    ensures forall c :: c in chains && c.net.Some? ==> c.net.value <= Best(chains)
    ensures if exists c :: c in chains && c.net.Some? then exists c :: c in chains && c.net == Some(Best(chains)) else Best(chains) == 0.0
  {
    var known := Known(chains);
    KnownAre(chains);
    if known != [] {
      assert known[0] in known;
      forall i | 0 <= i < |known| ensures known[i].net.Some? && known[i] in chains {
        assert known[i] in known;
      }
      BestOfIsMax(known);
      forall c | c in chains && c.net.Some? ensures c.net.value <= Best(chains) {
        assert c in known;
      }
      var i :| 0 <= i < |known| && known[i].net.value == BestOf(known);
      assert known[i].net == Some(Best(chains));
    }
  }

  lemma {:induction false} AttainingAre(chains: seq<Chain>, best: real)
    ensures forall ids :: ids in Attaining(chains, best) <==> exists c :: c in chains && c.net == Some(best) && c.ids == ids
  {
    if chains != [] {
      var n := |chains| - 1;
      AttainingAre(chains[..n], best);
      assert chains == chains[..n] + [chains[n]];
    }
  }

  lemma {:induction false} EligibleIsPart(units: seq<Unit>)
    requires DistinctIds(units)
    ensures DistinctIds(Eligible(units))
    ensures forall u :: u in Eligible(units) <==> u in units && IsEligible(u)
  {
    if units != [] {
      EligibleIsPart(units[1..]);
      assert units == [units[0]] + units[1..];
      assert forall u :: u in Eligible(units[1..]) ==> u in units[1..];
      assert forall u :: u in units[1..] ==> u.id != units[0].id;
    }
  }

  /** The chains of a report are the values of the admissible subsets. */
  lemma ReportedChains(data: Data, c: Chain)
    requires Reference(data).Some?
    ensures var e := Eligible(data.units);
      c in Reference(data).value.chains <==>
        c.ids <= Ids(e) && Admissible(data, Chosen(e, c.ids)) && Value(data, Chosen(e, c.ids)) == Kept(c)
  {
    var e := Eligible(data.units);
    var subsets := SizesBelow(e, |e| + 1);
    EligibleIsPart(data.units);
    if c in Reference(data).value.chains {
      var i := ChainHasSubset(data, subsets, c);
      assert subsets[i] in subsets;
      SizedIsChosen(e, |e| + 1, subsets[i]);
    }
    if c.ids <= Ids(e) && Value(data, Chosen(e, c.ids)) == Kept(c) {
      VisitedAreChoices(e, Chosen(e, c.ids));
      var i :| 0 <= i < |subsets| && subsets[i] == Chosen(e, c.ids);
      SubsetHasChain(data, subsets, i);
    }
  }

  lemma AdmissibleIsValued(data: Data, ids: set<string>)
    requires Reference(data).Some? && ids <= Ids(Eligible(data.units)) && Admissible(data, Chosen(Eligible(data.units), ids))
    ensures var subset := Chosen(Eligible(data.units), ids);
      && Value(data, subset).Kept? && Value(data, subset).chain.ids == ids
      && Value(data, subset).chain.net == NetOf(data, subset)
      && Value(data, subset).chain in Reference(data).value.chains
  {
    var e := Eligible(data.units);
    EligibleIsPart(data.units);
    VisitedAreChoices(e, Chosen(e, ids));
    var subsets := SizesBelow(e, |e| + 1);
    var i :| 0 <= i < |subsets| && subsets[i] == Chosen(e, ids);
    SubsetHasChain(data, subsets, i);
    ChosenIds(e, ids);
    assert ids * Ids(e) == ids;
  }

  ghost predicate HasKnown(data: Data) {
    exists ids :: ids <= Ids(Eligible(data.units)) && Admissible(data, Chosen(Eligible(data.units), ids))
      && NetOf(data, Chosen(Eligible(data.units), ids)).Some?
  }

  /** The best value is the maximum over all admissible subsets with a known value, zero
      when there is none; the optimizers are exactly the subsets that attain it. */
  lemma OptimumIsExact(data: Data)
    requires Reference(data).Some?
    ensures var e, r := Eligible(data.units), Reference(data).value;
      && (forall ids :: ids <= Ids(e) && Admissible(data, Chosen(e, ids)) && NetOf(data, Chosen(e, ids)).Some? ==>
            NetOf(data, Chosen(e, ids)).value <= r.bestNet)
      && (forall ids :: ids in r.optimizers <==>
            ids <= Ids(e) && Admissible(data, Chosen(e, ids)) && NetOf(data, Chosen(e, ids)) == Some(r.bestNet))
    ensures HasKnown(data) ==> Reference(data).value.optimizers != []
    ensures !HasKnown(data) ==> Reference(data).value.optimizers == [] && Reference(data).value.bestNet == 0.0
  {
    var e, r := Eligible(data.units), Reference(data).value;
    forall ids | ids <= Ids(e) && Admissible(data, Chosen(e, ids)) && NetOf(data, Chosen(e, ids)).Some?
      ensures NetOf(data, Chosen(e, ids)).value <= r.bestNet
    {
      NoneIsBetter(data, ids);
    }
    forall ids
      ensures ids in r.optimizers <==>
        ids <= Ids(e) && Admissible(data, Chosen(e, ids)) && NetOf(data, Chosen(e, ids)) == Some(r.bestNet)
    {
      OptimizerIsAttaining(data, ids);
    }
    KnownIsReported(data);
  }

  lemma NoneIsBetter(data: Data, ids: set<string>)
    requires Reference(data).Some? && ids <= Ids(Eligible(data.units)) && Admissible(data, Chosen(Eligible(data.units), ids))
    requires NetOf(data, Chosen(Eligible(data.units), ids)).Some?
    ensures NetOf(data, Chosen(Eligible(data.units), ids)).value <= Reference(data).value.bestNet
  {
    AdmissibleIsValued(data, ids);
    BestIsMax(Reference(data).value.chains);
  }

  lemma OptimizerIsAttaining(data: Data, ids: set<string>)
    requires Reference(data).Some?
    ensures var e, r := Eligible(data.units), Reference(data).value;
      ids in r.optimizers <==>
        ids <= Ids(e) && Admissible(data, Chosen(e, ids)) && NetOf(data, Chosen(e, ids)) == Some(r.bestNet)
  {
    var e, r := Eligible(data.units), Reference(data).value;
    AttainingAre(r.chains, r.bestNet);
    if ids in r.optimizers {
      var c :| c in r.chains && c.net == Some(r.bestNet) && c.ids == ids;
      ReportedChains(data, c);
      AdmissibleIsValued(data, ids);
    }
    if ids <= Ids(e) && Admissible(data, Chosen(e, ids)) && NetOf(data, Chosen(e, ids)) == Some(r.bestNet) {
      AdmissibleIsValued(data, ids);
    }
  }

  lemma {:induction false} NothingKnown(chains: seq<Chain>, best: real)
    requires forall c :: c in chains ==> c.net.None?
    ensures Known(chains) == [] && Attaining(chains, best) == []
  {
    if chains != [] {
      assert chains[|chains| - 1] in chains;
      NothingKnown(chains[..|chains| - 1], best);
    }
  }

  lemma KnownIsReported(data: Data)
    requires Reference(data).Some?
    ensures HasKnown(data) ==> Reference(data).value.optimizers != []
    ensures !HasKnown(data) ==> Reference(data).value.optimizers == [] && Reference(data).value.bestNet == 0.0
  {
    if HasKnown(data) {
      SomethingReported(data);
    } else {
      var r := Reference(data).value;
      forall c | c in r.chains ensures c.net.None? {
        ReportedChains(data, c);
        AdmissibleIsValued(data, c.ids);
      }
      NothingKnown(r.chains, r.bestNet);
    }
  }

  lemma SomethingReported(data: Data)
    requires Reference(data).Some? && HasKnown(data)
    ensures Reference(data).value.optimizers != []
  {
    var e, r := Eligible(data.units), Reference(data).value;
    BestIsMax(r.chains);
    AttainingAre(r.chains, r.bestNet);
    var ids :| ids <= Ids(e) && Admissible(data, Chosen(e, ids)) && NetOf(data, Chosen(e, ids)).Some?;
    AdmissibleIsValued(data, ids);
    assert Value(data, Chosen(e, ids)).chain.net.Some?;
    var c :| c in r.chains && c.net == Some(r.bestNet);
    assert c.ids in r.optimizers;
  }

  // ------------------------------------------------------------------------
  // When there is a report
  // ------------------------------------------------------------------------

  lemma {:induction false} ChainsFailOnCycle(data: Data, subsets: seq<seq<Unit>>)
    ensures Chains(data, subsets).None? <==> exists i :: 0 <= i < |subsets| && Value(data, subsets[i]).Cyclic?
    decreases |subsets|
  {
    if subsets != [] {
      var n := |subsets| - 1;
      ChainsFailOnCycle(data, subsets[..n]);
      assert forall i :: 0 <= i < n ==> subsets[..n][i] == subsets[i];
    }
  }

  lemma {:induction false} ChosenDistinct(units: seq<Unit>, ids: set<string>)
    requires DistinctIds(units)
    ensures DistinctIds(Chosen(units, ids))
  {
    if units != [] {
      HeadIsDistinct(units);
      ChosenDistinct(units[1..], ids);
      ChosenIds(units[1..], ids);
      DistinctCons(units[0], Chosen(units[1..], ids));
    }
  }

  lemma DistinctCons(u: Unit, rest: seq<Unit>)
    requires DistinctIds(rest) && u.id !in Ids(rest)
    ensures DistinctIds([u] + rest)
  {
    assert forall i :: 0 <= i < |rest| ==> rest[i].id in Ids(rest);
  }

  /** A closed choice of available units within the attempts that has a prerequisite cycle. */
  ghost predicate CyclicChoice(data: Data, ids: set<string>) {
    var subset := Chosen(Eligible(data.units), ids);
    && ids <= Ids(Eligible(data.units)) && Closed(subset, CompletedIds(data.units)) && |subset| <= data.remainingAttempts
    && exists path :: Cycle(subset, path)
  }

  lemma CyclicChoiceIsVisited(data: Data, ids: set<string>)
    requires WellFormed(data) && CyclicChoice(data, ids)
    ensures Reference(data).None?
  {
    var e := Eligible(data.units);
    var subsets := SizesBelow(e, |e| + 1);
    EligibleIsPart(data.units);
    ChosenDistinct(e, ids);
    StopsExactlyOnCycles(Chosen(e, ids));
    VisitedAreChoices(e, Chosen(e, ids));
    var i :| 0 <= i < |subsets| && subsets[i] == Chosen(e, ids);
    assert Value(data, subsets[i]).Cyclic?;
    ChainsFailOnCycle(data, subsets);
  }

  lemma StopNamesCyclicChoice(data: Data) returns (ids: set<string>)
    requires WellFormed(data) && Reference(data).None?
    ensures CyclicChoice(data, ids)
  {
    var e := Eligible(data.units);
    var subsets := SizesBelow(e, |e| + 1);
    EligibleIsPart(data.units);
    ChainsFailOnCycle(data, subsets);
    var i :| 0 <= i < |subsets| && Value(data, subsets[i]).Cyclic?;
    assert subsets[i] in subsets;
    VisitedAreChoices(e, subsets[i]);
    ids :| ids <= Ids(e) && subsets[i] == Chosen(e, ids);
    ChosenDistinct(e, ids);
    StopsExactlyOnCycles(subsets[i]);
  }

  /** There is a report exactly for well-formed data without a cyclic choice. */
  lemma ReportsExactly(data: Data)
    ensures Reference(data).Some? <==> WellFormed(data) && forall ids :: !CyclicChoice(data, ids)
  {
    if WellFormed(data) {
      if Reference(data).None? {
        var ids := StopNamesCyclicChoice(data);
      } else {
        forall ids ensures !CyclicChoice(data, ids) {
          if CyclicChoice(data, ids) {
            CyclicChoiceIsVisited(data, ids);
          }
        }
      }
    }
  }

  // ------------------------------------------------------------------------
  // Budgets
  // ------------------------------------------------------------------------

  predicate NonNegativeDurations(units: seq<Unit>) {
    forall i :: 0 <= i < |units| ==> units[i].duration.Some? ==> units[i].duration.value >= 0.0
  }

  lemma {:induction false} SumNonNegative(values: seq<Option<real>>)
    requires forall i :: 0 <= i < |values| ==> values[i].Some? ==> values[i].value >= 0.0
    ensures Sum(values).Some? ==> Sum(values).value >= 0.0
  {
    if values != [] {
      SumNonNegative(values[..|values| - 1]);
    }
  }

  lemma ChoiceDurations(data: Data, ids: set<string>)
    requires WellFormed(data) && NonNegativeDurations(data.units)
    ensures var sum := Sum(Durations(Chosen(Eligible(data.units), ids))); sum.Some? ==> sum.value >= 0.0
  {
    EligibleIsPart(data.units);
    var subset := Chosen(Eligible(data.units), ids);
    forall i | 0 <= i < |subset| ensures subset[i].duration.Some? ==> subset[i].duration.value >= 0.0 {
      assert subset[i] in subset;
    }
    SumNonNegative(Durations(subset));
  }

  /** With budgets that are not negative, doing nothing is worth zero, so the best is at
      least zero. */
  lemma DoingNothing(data: Data)
    requires Reference(data).Some? && data.remainingAttempts >= 0 && data.remainingMs >= 0.0
    ensures Reference(data).value.bestNet >= 0.0
  {
    OptimumIsExact(data);
    var e := Eligible(data.units);
    NothingChosen(e);
    var none: set<string> := {};
    assert Ids([]) == none && none <= Ids(e);
    assert Chosen(e, none) == [];
    assert Admissible(data, Chosen(e, none));
    if data.delayPerMs.Some? {
      NothingIsWorthZero(data);
      NoneIsBetter(data, none);
    } else {
      forall subset ensures NetOf(data, subset).None? {
      }
      assert !HasKnown(data);
    }
  }

  lemma NothingIsWorthZero(data: Data)
    requires data.delayPerMs.Some?
    ensures NetOf(data, []) == Some(0.0)
  {
    assert Costs([]) == [] && Durations([]) == [];
    assert Sum([]) == Some(0.0);
    assert Cost(data, [], 0) == Some(0.0 + Times(0.0, data.controllerCallCost));
    assert Delay(data, []) == Some(Times(0.0, data.delayPerMs.value));
    assert Gain(data, []) == 0.0;
  }

  /** A subset of the available units that the budgets admit, of known value. */
  ghost predicate Offers(data: Data, ids: set<string>) {
    var subset := Chosen(Eligible(data.units), ids);
    ids <= Ids(Eligible(data.units)) && Admissible(data, subset) && NetOf(data, subset).Some?
  }

  /** The subset takes more attempts than there are, or more time as far as it is known. */
  predicate OverBudget(data: Data, subset: seq<Unit>) {
    |subset| > data.remainingAttempts || OverTime(data, subset)
  }

  /** A larger budget lowers the best value exactly when it offers something, offers nothing
      but losing subsets, and the smaller budget is too small for each of them: then the
      smaller one has nothing of known value, not even doing nothing. */
  lemma BestFallsExactly(data: Data, attempts: int, ms: real)
    requires data.remainingAttempts <= attempts && data.remainingMs <= ms
    requires Reference(data).Some? && Reference(data.(remainingAttempts := attempts, remainingMs := ms)).Some?
    ensures var more := data.(remainingAttempts := attempts, remainingMs := ms); var e := Eligible(data.units);
      Reference(more).value.bestNet < Reference(data).value.bestNet <==>
        && (exists ids :: Offers(more, ids))
        && (forall ids :: Offers(more, ids) ==>
              NetOf(more, Chosen(e, ids)).value < 0.0 && OverBudget(data, Chosen(e, ids)))
  {
    var more := data.(remainingAttempts := attempts, remainingMs := ms);
    var e := Eligible(data.units);
    OptimumIsExact(data);
    OptimumIsExact(more);
    if HasKnown(data) {
      SmallerBudgetOffers(data, more);
    } else {
      forall ids | Offers(more, ids) ensures OverBudget(data, Chosen(e, ids)) {
        SameNet(data, more, Chosen(e, ids));
      }
      assert HasKnown(more) <==> exists ids :: Offers(more, ids);
      if HasKnown(more) {
        var best := Reference(more).value.optimizers[0];
        assert best in Reference(more).value.optimizers;
        assert Offers(more, best);
      }
    }
  }

  /** What the smaller budget offers the larger one offers too, at the same value. */
  lemma SmallerBudgetOffers(data: Data, more: Data)
    requires more == data.(remainingAttempts := more.remainingAttempts, remainingMs := more.remainingMs)
    requires data.remainingAttempts <= more.remainingAttempts && data.remainingMs <= more.remainingMs
    requires Reference(data).Some? && Reference(more).Some? && HasKnown(data)
    ensures Reference(data).value.bestNet <= Reference(more).value.bestNet
    ensures exists ids :: Offers(more, ids) && !OverBudget(data, Chosen(Eligible(data.units), ids))
  {
    OptimumIsExact(data);
    OptimumIsExact(more);
    var ids := Reference(data).value.optimizers[0];
    assert ids in Reference(data).value.optimizers;
    SameNet(data, more, Chosen(Eligible(data.units), ids));
    assert Offers(more, ids);
  }

  /** With durations that are not negative, or budgets that are not, a larger budget never
      lowers the best value. */
  lemma BestNeverFalls(data: Data, attempts: int, ms: real)
    requires data.remainingAttempts <= attempts && data.remainingMs <= ms
    requires NonNegativeDurations(data.units) || (data.remainingAttempts >= 0 && data.remainingMs >= 0.0)
    requires Reference(data).Some? && Reference(data.(remainingAttempts := attempts, remainingMs := ms)).Some?
    ensures Reference(data).value.bestNet <= Reference(data.(remainingAttempts := attempts, remainingMs := ms)).value.bestNet
  {
    var more := data.(remainingAttempts := attempts, remainingMs := ms);
    OptimumIsExact(data);
    if HasKnown(data) {
      SmallerBudgetOffers(data, more);
    } else if attempts >= 0 && ms >= 0.0 {
      DoingNothing(more);
    } else {
      NothingAdmissible(more);
    }
  }

  /** The value of a subset does not depend on the budgets. */
  lemma SameNet(data: Data, more: Data, subset: seq<Unit>)
    requires more == data.(remainingAttempts := more.remainingAttempts, remainingMs := more.remainingMs)
    ensures NetOf(more, subset) == NetOf(data, subset)
    ensures Closed(subset, CompletedIds(more.units)) == Closed(subset, CompletedIds(data.units))
  {
    var calls := Deepest(subset, subset, {});
    assert more.controllerCallCost == data.controllerCallCost && more.delayPerMs == data.delayPerMs;
    if calls.Some? {
      assert Cost(more, subset, calls.value) == Cost(data, subset, calls.value);
      assert Delay(more, subset) == Delay(data, subset);
      assert Gain(more, subset) == Gain(data, subset);
    }
  }

  lemma NothingAdmissible(data: Data)
    requires Reference(data).Some? && NonNegativeDurations(data.units)
    requires data.remainingAttempts < 0 || data.remainingMs < 0.0
    ensures Reference(data).value.bestNet == 0.0
  {
    OptimumIsExact(data);
    forall ids | ids <= Ids(Eligible(data.units)) && Admissible(data, Chosen(Eligible(data.units), ids))
      ensures NetOf(data, Chosen(Eligible(data.units), ids)).None?
    {
      ChoiceDurations(data, ids);
    }
    assert !HasKnown(data);
  }

  const HURRIED := Unit("u", Pending, false, {}, Some(10.0), Some(-5.0))

  function Hurry(ms: real): Data {
    Data([HURRIED], 1, ms, true, 0.0, 0.0, Some(0.0))
  }

  lemma OneUnitSizes(u: Unit)
    ensures SizesBelow([u], 2) == [[], [u]]
  {
    var none: seq<Unit> := [];
    assert [u][1..] == none && [none][1..] == [] && [u] + none == [u];
    assert Combinations(none, 0) == [none] && Combinations([u], 0) == [none] && Combinations(none, 1) == [];
    assert Prefixed(u, [none]) == [[u]];
    assert Combinations([u], 1) == Prefixed(u, [none]) + [];
    assert SizesBelow([u], 1) == [] + [none] == [none];
    assert SizesBelow([u], 2) == [none] + [[u]];
  }

  lemma OneUnitDepth(u: Unit)
    requires u.prerequisites == {}
    ensures Deepest([u], [u], {}) == Some(1)
  {
    var none: seq<Unit> := [];
    assert [u][1..] == none && [u][..0] == none;
    assert Dependencies([u], u) == [];
    assert Depth([u], u, {}) == Some(1);
  }

  lemma OneUnitSums(u: Unit)
    ensures u.duration.Some? ==> Sum(Durations([u])) == u.duration
    ensures u.cost.Some? ==> Sum(Costs([u])) == u.cost
  {
    assert Durations([u]) == [u.duration] && Costs([u]) == [u.cost];
    assert [u.duration][..0] == [] && [u.cost][..0] == [];
  }

  lemma OneUnitChains(ms: real)
    requires ms < 0.0
    ensures SizesBelow([HURRIED], 2) == [[], [HURRIED]] && Eligible([HURRIED]) == [HURRIED]
    ensures Value(Hurry(ms), []) == Skipped
    ensures Value(Hurry(ms), [HURRIED]) ==
      if -5.0 > ms then Skipped else Kept(Chain({"u"}, 0.0, Some(10.0), Some(0.0), Some(-10.0)))
  {
    var u, none: seq<Unit> := HURRIED, [];
    assert [u][1..] == none;
    OneUnitSizes(u);
    OneUnitDepth(u);
    OneUnitSums(u);
    assert Durations(none) == [];
    assert Ids([u]) == {u.id};
    assert Times(1.0, 0.0) == 0.0 && Times(-5.0, 0.0) == 0.0;
  }

  /** A unit of negative duration, and a time budget that is negative: raising the budget
      from -10 to -5 makes the unit affordable and lowers the best value. */
  lemma BestCanFall()
    ensures Reference(Hurry(-10.0)).Some? && Reference(Hurry(-10.0)).value.bestNet == 0.0
    ensures Reference(Hurry(-5.0)).Some? && Reference(Hurry(-5.0)).value.bestNet == -10.0
  {
    var c := Chain({"u"}, 0.0, Some(10.0), Some(0.0), Some(-10.0));
    OneUnitChains(-10.0);
    OneUnitChains(-5.0);
    OneSubsetChains(Hurry(-10.0), [HURRIED]);
    OneSubsetChains(Hurry(-5.0), [HURRIED]);
    assert Value(Hurry(-5.0), [HURRIED]) == Kept(c);
    assert [c][..0] == [] && Known([c]) == [c];
  }

  lemma OneSubsetChains(data: Data, subset: seq<Unit>)
    requires Value(data, []) == Skipped && !Value(data, subset).Cyclic?
    ensures Chains(data, [[], subset]) ==
      Some(if Value(data, subset).Kept? then [Value(data, subset).chain] else [])
  {
    var none: seq<Unit> := [];
    assert [none, subset][..1] == [none] && [none][..0] == [];
    assert Chains(data, [none]) == Some([]);
    if Value(data, subset).Kept? {
      assert [] + [Value(data, subset).chain] == [Value(data, subset).chain];
    }
  }

  // ------------------------------------------------------------------------
  // The loop
  // ------------------------------------------------------------------------

  lemma {:induction false} StoppedForGood(data: Data, subsets: seq<seq<Unit>>, n: nat)
    requires n <= |subsets| && Chains(data, subsets[..n]).None?
    ensures Chains(data, subsets).None?
    decreases |subsets|
  {
    if n == |subsets| {
      assert subsets[..n] == subsets;
    } else {
      var init := subsets[..|subsets| - 1];
      assert init[..n] == subsets[..n];
      StoppedForGood(data, init, n);
    }
  }

  lemma {:induction false} SizesPrefix(units: seq<Unit>, a: nat, b: nat)
    requires a <= b
    ensures SizesBelow(units, a) <= SizesBelow(units, b)
  {
    if a < b {
      SizesPrefix(units, a, b - 1);
    }
  }

  lemma StopsAtSize(data: Data, eligible: seq<Unit>, count: nat)
    requires count <= |eligible| && Chains(data, SizesBelow(eligible, count + 1)).None?
    ensures Chains(data, SizesBelow(eligible, |eligible| + 1)).None?
  {
    var whole, part := SizesBelow(eligible, |eligible| + 1), SizesBelow(eligible, count + 1);
    SizesPrefix(eligible, count + 1, |eligible| + 1);
    PrefixStops(data, part, whole);
  }

  lemma PrefixStops(data: Data, part: seq<seq<Unit>>, whole: seq<seq<Unit>>)
    requires part <= whole && Chains(data, part).None?
    ensures Chains(data, whole).None?
  {
    assert whole[..|part|] == part;
    StoppedForGood(data, whole, |part|);
  }

  method ComputeReference(data: Data) returns (r: Option<Report>)
    ensures r == Reference(data)
  {
    if !WellFormed(data) { return None; }
    var eligible := Eligible(data.units);
    var chains := ValueSizes(data, eligible);
    if chains.None? { return None; }
    r := Some(Report(chains.value, Best(chains.value), Attaining(chains.value, Best(chains.value)),
                     |chains.value| - KnownCount(chains.value)));
  }

  /** Values the combinations size by size. */
  method ValueSizes(data: Data, eligible: seq<Unit>) returns (r: Option<seq<Chain>>)
    ensures r == Chains(data, SizesBelow(eligible, |eligible| + 1))
  {
    var chains: seq<Chain> := [];
    for count := 0 to |eligible| + 1
      invariant Chains(data, SizesBelow(eligible, count)) == Some(chains)
    {
      var more := ValueAll(data, Combinations(eligible, count), SizesBelow(eligible, count), chains);
      assert SizesBelow(eligible, count + 1) == SizesBelow(eligible, count) + Combinations(eligible, count);
      if more.None? {
        StopsAtSize(data, eligible, count);
        return None;
      }
      chains := more.value;
    }
    r := Some(chains);
  }

  /** Values the combinations of one size behind those of the smaller sizes. */
  method ValueAll(data: Data, combos: seq<seq<Unit>>, ghost before: seq<seq<Unit>>, start: seq<Chain>)
    returns (r: Option<seq<Chain>>)
    requires Chains(data, before) == Some(start)
    ensures r == Chains(data, before + combos)
  {
    var chains := start;
    assert before + combos[..0] == before;
    for i := 0 to |combos|
      invariant Chains(data, before + combos[..i]) == Some(chains)
    {
      var value := Value(data, combos[i]);
      NextChain(data, before, combos, i);
      if value.Cyclic? {
        assert (before + combos)[..|before| + i + 1] == before + combos[..i + 1];
        StoppedForGood(data, before + combos, |before| + i + 1);
        return None;
      }
      if value.Kept? {
        chains := chains + [value.chain];
      }
    }
    assert combos[..|combos|] == combos;
    r := Some(chains);
  }

  lemma NextChain(data: Data, before: seq<seq<Unit>>, combos: seq<seq<Unit>>, i: nat)
    requires i < |combos|
    ensures Chains(data, before + combos[..i + 1]) ==
      var done := Chains(data, before + combos[..i]); var value := Value(data, combos[i]);
      if done.None? || value.Cyclic? then None
      else Some(if value.Kept? then done.value + [value.chain] else done.value)
  {
    var longer := before + combos[..i + 1];
    assert longer[..|longer| - 1] == before + combos[..i] && longer[|longer| - 1] == combos[i];
  }
}
