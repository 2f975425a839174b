/** The exact finite reference of finnor-os/scripts/m2/reference.py: every subset of the
    available units is valued, and the best known value and its attainers are reported.
    Amounts are exact. */
module SubsetOptimum {
  import opened Basics

  datatype UnitStatus = Pending | Queued | Running | Completed | OtherStatus
  datatype Unit = Unit(id: string, status: UnitStatus, verifies: bool, prerequisites: set<string>,
                       cost: Option<real>, duration: Option<real>)
  datatype Data = Data(units: seq<Unit>, remainingAttempts: int, remainingMs: real, incumbentQualified: bool, lossGap: real,
                       controllerCallCost: real, delayPerMs: Option<real>)
  datatype Chain = Chain(ids: set<string>, gain: real, cost: Option<real>, delay: Option<real>, net: Option<real>)
  datatype Report = Report(chains: seq<Chain>, bestNet: real, optimizers: seq<set<string>>, unknownChains: nat)

  const MAX_UNITS := 8

  function Ids(units: seq<Unit>): set<string> {
    set u | u in units :: u.id
  }

  predicate DistinctIds(units: seq<Unit>) {
    forall i, k :: 0 <= i < k < |units| ==> units[i].id != units[k].id
  }

  predicate WellFormed(data: Data) {
    && |data.units| <= MAX_UNITS && DistinctIds(data.units)
    && forall i :: 0 <= i < |data.units| ==> data.units[i].prerequisites <= Ids(data.units)
  }

  predicate IsEligible(u: Unit) {
    u.status == Pending || u.status == Queued || u.status == Running
  }

  function Eligible(units: seq<Unit>): seq<Unit> {
    if units == [] then []
    else if IsEligible(units[0]) then [units[0]] + Eligible(units[1..])
    else Eligible(units[1..])
  }

  function CompletedIds(units: seq<Unit>): set<string> {
    set u | u in units && u.status == Completed :: u.id
  }

  // ------------------------------------------------------------------------
  // Combinations, in the order the iterator yields them
  // ------------------------------------------------------------------------

  function Prefixed(u: Unit, tails: seq<seq<Unit>>): seq<seq<Unit>> {
    if tails == [] then [] else [[u] + tails[0]] + Prefixed(u, tails[1..])
  }

  function Combinations(units: seq<Unit>, count: nat): seq<seq<Unit>> {
    if count == 0 then [[]]
    else if units == [] then []
    else Prefixed(units[0], Combinations(units[1..], count - 1)) + Combinations(units[1..], count)
  }

  /** All combinations of fewer than `bound` units, by size. */
  function SizesBelow(units: seq<Unit>, bound: nat): seq<seq<Unit>> {
    if bound == 0 then [] else SizesBelow(units, bound - 1) + Combinations(units, bound - 1)
  }

  // ------------------------------------------------------------------------
  // Depth
  // ------------------------------------------------------------------------

  function Dependencies(subset: seq<Unit>, u: Unit): (r: seq<Unit>)
    ensures forall v :: v in r <==> v in subset && v.id in u.prerequisites
  {
    if subset == [] then []
    else if subset[0].id in u.prerequisites then [subset[0]] + Dependencies(subset[1..], u)
    else Dependencies(subset[1..], u)
  }

  /** None when the walk meets a unit it is already inside of. */
  function Depth(subset: seq<Unit>, u: Unit, seen: set<string>): Option<nat>
    requires u in subset
    decreases |Ids(subset) - seen|, 1, 0
  {
    if u.id in seen then None
    else
      assert u.id in Ids(subset) - seen;
      assert Ids(subset) - (seen + {u.id}) < Ids(subset) - seen;
      SmallerSet(Ids(subset) - (seen + {u.id}), Ids(subset) - seen);
      var deepest := Deepest(subset, Dependencies(subset, u), seen + {u.id});
      if deepest.None? then None else Some(1 + deepest.value)
  }

  function Deepest(subset: seq<Unit>, among: seq<Unit>, seen: set<string>): Option<nat>
    requires forall v :: v in among ==> v in subset
    decreases |Ids(subset) - seen|, 2, |among|
  {
    if among == [] then Some(0)
    else
      var last := Depth(subset, among[|among| - 1], seen);
      var before := Deepest(subset, among[..|among| - 1], seen);
      if last.None? || before.None? then None
      else Some(if last.value > before.value then last.value else before.value)
  }

  lemma SmallerSet(a: set<string>, b: set<string>)
    requires a < b
    ensures |a| < |b|
  {
    var x :| x in b && x !in a;
    assert a <= b - {x};
    SubsetSize(a, b - {x});
  }

  lemma {:induction false} SubsetSize(a: set<string>, b: set<string>)
    requires a <= b
    ensures |a| <= |b|
    decreases |a|
  {
    if a != {} {
      var x :| x in a;
      SubsetSize(a - {x}, b - {x});
    }
  }

  // ------------------------------------------------------------------------
  // Valuing one subset
  // ------------------------------------------------------------------------

  predicate Closed(subset: seq<Unit>, completed: set<string>) {
    forall i :: 0 <= i < |subset| ==> subset[i].prerequisites <= Ids(subset) + completed
  }

  function Costs(subset: seq<Unit>): seq<Option<real>> {
    seq(|subset|, i requires 0 <= i < |subset| => subset[i].cost)
  }

  function Durations(subset: seq<Unit>): seq<Option<real>> {
    seq(|subset|, i requires 0 <= i < |subset| => subset[i].duration)
  }

  /** None when some value is unknown. */
  function Sum(values: seq<Option<real>>): Option<real> {
    if values == [] then Some(0.0)
    else
      var before := Sum(values[..|values| - 1]);
      var last := values[|values| - 1];
      if before.None? || last.None? then None else Some(before.value + last.value)
  }

  function Gain(data: Data, subset: seq<Unit>): real {
    if data.incumbentQualified then 0.0
    else if exists i :: 0 <= i < |subset| && subset[i].verifies then data.lossGap else 0.0
  }

  function Times(a: real, b: real): real {
    a * b
  }

  function Cost(data: Data, subset: seq<Unit>, calls: nat): Option<real> {
    var sum := Sum(Costs(subset));
    if sum.None? then None else Some(sum.value + Times(calls as real, data.controllerCallCost))
  }

  function Delay(data: Data, subset: seq<Unit>): Option<real> {
    var sum := Sum(Durations(subset));
    if sum.None? || data.delayPerMs.None? then None else Some(Times(sum.value, data.delayPerMs.value))
  }

  function ChainOf(data: Data, subset: seq<Unit>, calls: nat): Chain {
    var cost, delay := Cost(data, subset, calls), Delay(data, subset);
    var gain := Gain(data, subset);
    Chain(Ids(subset), gain, cost, delay, if cost.None? || delay.None? then None else Some(gain - cost.value - delay.value))
  }

  predicate OverTime(data: Data, subset: seq<Unit>) {
    Sum(Durations(subset)).Some? && Sum(Durations(subset)).value > data.remainingMs
  }

  datatype Valued = Skipped | Kept(chain: Chain) | Cyclic

  function Value(data: Data, subset: seq<Unit>): Valued {
    if !Closed(subset, CompletedIds(data.units)) || |subset| > data.remainingAttempts then Skipped
    else
      var calls := Deepest(subset, subset, {});
      if calls.None? then Cyclic
      else if OverTime(data, subset) then Skipped
      else Kept(ChainOf(data, subset, calls.value))
  }

  /** The chains in order; None when a valued subset has a prerequisite cycle. */
  function Chains(data: Data, subsets: seq<seq<Unit>>): Option<seq<Chain>> {
    if subsets == [] then Some([])
    else
      var before := Chains(data, subsets[..|subsets| - 1]);
      var last := Value(data, subsets[|subsets| - 1]);
      if before.None? || last.Cyclic? then None
      else Some(if last.Kept? then before.value + [last.chain] else before.value)
  }

  function Known(chains: seq<Chain>): seq<Chain> {
    if chains == [] then []
    else
      var last := chains[|chains| - 1];
      Known(chains[..|chains| - 1]) + if last.net.Some? then [last] else []
  }

  /** The greatest known value; zero when none is known. */
  function Best(chains: seq<Chain>): real {
    var known := Known(chains);
    if known == [] then 0.0 else BestOf(known)
  }

  function BestOf(known: seq<Chain>): real
    requires known != []
  {
    var last := if known[|known| - 1].net.Some? then known[|known| - 1].net.value else 0.0;
    if |known| == 1 then last
    else
      var before := BestOf(known[..|known| - 1]);
      if last > before then last else before
  }

  function Attaining(chains: seq<Chain>, best: real): seq<set<string>> {
    if chains == [] then []
    else
      var last := chains[|chains| - 1];
      Attaining(chains[..|chains| - 1], best) + if last.net == Some(best) then [last.ids] else []
  }

  /** None where the program stops at an assertion. */
  function Reference(data: Data): Option<Report> {
    if !WellFormed(data) then None
    else
      var eligible := Eligible(data.units);
      var chains := Chains(data, SizesBelow(eligible, |eligible| + 1));
      if chains.None? then None
      else Some(Report(chains.value, Best(chains.value), Attaining(chains.value, Best(chains.value)),
                       |chains.value| - KnownCount(chains.value)))
  }

  function KnownCount(chains: seq<Chain>): (n: nat)
    ensures n == |Known(chains)| <= |chains|
  {
    if chains == [] then 0
    else KnownCount(chains[..|chains| - 1]) + if chains[|chains| - 1].net.Some? then 1 else 0
  }
}
