/** The reference visits every subset once, measures the longest prerequisite path, and
    reports the true optimum with exactly its attainers. */
module SubsetOptimumProof {
  import opened Basics
  import opened SubsetOptimum

  // ------------------------------------------------------------------------
  // Every subset once
  // ------------------------------------------------------------------------

  /** How often a list of combinations holds one with exactly these ids. */
  function Occurrences(combos: seq<seq<Unit>>, ids: set<string>): nat {
    if combos == [] then 0 else (if Ids(combos[0]) == ids then 1 else 0) + Occurrences(combos[1..], ids)
  }

  lemma {:induction false} OccurrencesConcat(a: seq<seq<Unit>>, b: seq<seq<Unit>>, ids: set<string>)
    ensures Occurrences(a + b, ids) == Occurrences(a, ids) + Occurrences(b, ids)
  {
    if a == [] {
      assert a + b == b;
    } else {
      assert (a + b)[1..] == a[1..] + b;
      OccurrencesConcat(a[1..], b, ids);
    }
  }

  lemma IdsCons(u: Unit, rest: seq<Unit>)
    ensures Ids([u] + rest) == {u.id} + Ids(rest)
  {
    assert u in [u] + rest && forall v :: v in rest ==> v in [u] + rest;
  }

  /** The members of a list whose ids are chosen, in order. */
  function Chosen(units: seq<Unit>, ids: set<string>): (r: seq<Unit>)
    ensures forall u :: u in r ==> u in units
  {
    if units == [] then []
    else if units[0].id in ids then [units[0]] + Chosen(units[1..], ids)
    else Chosen(units[1..], ids)
  }

  lemma {:induction false} ChosenIds(units: seq<Unit>, ids: set<string>)
    ensures Ids(Chosen(units, ids)) == ids * Ids(units)
  {
    if units != [] {
      ChosenIds(units[1..], ids);
      assert units == [units[0]] + units[1..];
      IdsCons(units[0], units[1..]);
      if units[0].id in ids {
        IdsCons(units[0], Chosen(units[1..], ids));
      }
    }
  }

  lemma {:induction false} ChosenIgnoresOthers(units: seq<Unit>, ids: set<string>, more: set<string>)
    requires forall u :: u in units ==> (u.id in ids <==> u.id in more)
    ensures Chosen(units, ids) == Chosen(units, more)
  {
    if units != [] {
      assert units[0] in units;
      ChosenIgnoresOthers(units[1..], ids, more);
    }
  }

  lemma {:induction false} ChosenSize(units: seq<Unit>, ids: set<string>)
    requires DistinctIds(units)
    ensures |Chosen(units, ids)| == |ids * Ids(units)|
  {
    if units == [] {
      assert ids * Ids(units) == {};
    } else {
      var u, rest := units[0], units[1..];
      ChosenSize(rest, ids);
      assert units == [u] + rest;
      IdsCons(u, rest);
      assert u.id !in Ids(rest);
      if u.id in ids {
        assert ids * Ids(units) == {u.id} + ids * Ids(rest);
      } else {
        assert ids * Ids(units) == ids * Ids(rest);
      }
    }
  }

  lemma ChosenCons(u: Unit, rest: seq<Unit>, tail: seq<Unit>)
    requires tail == Chosen(rest, Ids(tail)) && u.id !in Ids(rest)
    ensures [u] + tail == Chosen([u] + rest, Ids([u] + tail))
  {
    IdsCons(u, tail);
    assert ([u] + rest)[1..] == rest;
    assert forall v :: v in rest ==> v.id in Ids(rest);
    ChosenIgnoresOthers(rest, Ids([u] + tail), Ids(tail));
  }

  lemma ChosenSkip(u: Unit, rest: seq<Unit>, c: seq<Unit>)
    requires c == Chosen(rest, Ids(c)) && u.id !in Ids(c)
    ensures c == Chosen([u] + rest, Ids(c))
  {
    assert ([u] + rest)[1..] == rest;
  }

  lemma {:induction false} InPrefixed(u: Unit, tails: seq<seq<Unit>>, c: seq<Unit>) returns (tail: seq<Unit>)
    requires c in Prefixed(u, tails)
    ensures tail in tails && c == [u] + tail
  {
    if c == [u] + tails[0] {
      tail := tails[0];
    } else {
      tail := InPrefixed(u, tails[1..], c);
    }
  }

  lemma CombinationsUnfold(u: Unit, rest: seq<Unit>, units: seq<Unit>, fewer: nat, count: nat)
    requires units != [] && u == units[0] && rest == units[1..] && count > 0 && fewer == count - 1
    ensures Combinations(units, count) == Prefixed(u, Combinations(rest, fewer)) + Combinations(rest, count)
  {
  }

  lemma PrefixedIsChosen(u: Unit, rest: seq<Unit>, tail: seq<Unit>)
    requires u.id !in Ids(rest) && Ids(tail) <= Ids(rest) && tail == Chosen(rest, Ids(tail))
    ensures Ids([u] + tail) <= Ids([u] + rest) && [u] + tail == Chosen([u] + rest, Ids([u] + tail))
  {
    IdsCons(u, tail);
    IdsCons(u, rest);
    ChosenCons(u, rest, tail);
  }

  /** A combination is the members with its ids, in the list's order. */
  lemma {:induction false} CombinationIsChosen(units: seq<Unit>, count: nat, c: seq<Unit>)
    requires DistinctIds(units) && c in Combinations(units, count)
    ensures |c| == count && Ids(c) <= Ids(units) && c == Chosen(units, Ids(c))
    decreases |units|
  {
    if count == 0 {
      NothingChosen(units);
    } else {
      var u, rest, fewer := units[0], units[1..], count - 1;
      HeadIsDistinct(units);
      CombinationsUnfold(u, rest, units, fewer, count);
      if c in Combinations(rest, count) {
        CombinationIsChosen(rest, count, c);
        ChosenSkip(u, rest, c);
      } else {
        InEither(Prefixed(u, Combinations(rest, fewer)), Combinations(rest, count), c);
        var tail := InPrefixed(u, Combinations(rest, fewer), c);
        CombinationIsChosen(rest, fewer, tail);
        PrefixedIsChosen(u, rest, tail);
      }
    }
  }

  lemma HeadIsDistinct(units: seq<Unit>)
    requires DistinctIds(units) && units != []
    ensures units == [units[0]] + units[1..] && DistinctIds(units[1..])
    ensures Ids(units) == {units[0].id} + Ids(units[1..]) && units[0].id !in Ids(units[1..])
  {
    assert units == [units[0]] + units[1..];
    IdsCons(units[0], units[1..]);
  }

  lemma {:induction false} NothingChosen(units: seq<Unit>)
    ensures Chosen(units, Ids([])) == []
  {
    if units != [] {
      NothingChosen(units[1..]);
    }
  }

  lemma {:induction false} OccurrencesPrefixed(u: Unit, tails: seq<seq<Unit>>, ids: set<string>)
    requires forall i :: 0 <= i < |tails| ==> u.id !in Ids(tails[i])
    ensures Occurrences(Prefixed(u, tails), ids) == if u.id in ids then Occurrences(tails, ids - {u.id}) else 0
  {
    if tails != [] {
      OccurrencesPrefixed(u, tails[1..], ids);
      IdsCons(u, tails[0]);
      assert Prefixed(u, tails)[0] == [u] + tails[0] && Prefixed(u, tails)[1..] == Prefixed(u, tails[1..]);
      if u.id in ids && Ids(tails[0]) == ids - {u.id} {
        assert Ids([u] + tails[0]) == ids;
      }
      if Ids([u] + tails[0]) == ids {
        assert Ids(tails[0]) == ids - {u.id};
      }
    }
  }

  /** Whether a set is one of the subsets of a size, by whether it holds one element. */
  lemma SubsetsByHead(id: string, rest: set<string>, ids: set<string>, count: nat)
    requires id !in rest && count > 0
    ensures id in ids ==> (ids <= {id} + rest && |ids| == count <==> ids - {id} <= rest && |ids - {id}| == count - 1)
    ensures id !in ids ==> (ids <= {id} + rest <==> ids <= rest)
    ensures id in ids ==> !(ids <= rest)
  {
    if id in ids {
      assert |ids - {id}| == |ids| - 1;
      assert ids <= {id} + rest <==> ids - {id} <= rest;
    }
  }

  ghost predicate Lack(combos: seq<seq<Unit>>, id: string) {
    forall i :: 0 <= i < |combos| ==> id !in Ids(combos[i])
  }

  lemma TailsLackHead(u: Unit, rest: seq<Unit>, count: nat)
    requires DistinctIds(rest) && u.id !in Ids(rest)
    ensures Lack(Combinations(rest, count), u.id)
  {
    forall i | 0 <= i < |Combinations(rest, count)|
      ensures u.id !in Ids(Combinations(rest, count)[i])
    {
      CombinationIsChosen(rest, count, Combinations(rest, count)[i]);
    }
  }

  /** One for a subset of the given size, none otherwise. */
  function Once(ids: set<string>, all: set<string>, count: int): nat {
    if ids <= all && |ids| == count then 1 else 0
  }

  lemma OnceAtTheEnd(units: seq<Unit>, count: nat, ids: set<string>)
    requires count == 0 || units == []
    ensures Occurrences(Combinations(units, count), ids) == Once(ids, Ids(units), count)
  {
    var nothing: seq<Unit> := [];
    assert Ids(nothing) == {};
    if count == 0 {
      assert [nothing][1..] == [];
      assert Occurrences([nothing], ids) == if ids == {} then 1 else 0;
    }
  }

  lemma {:induction false} CombinationsOnce(units: seq<Unit>, count: nat, ids: set<string>)
    requires DistinctIds(units)
    ensures Occurrences(Combinations(units, count), ids) == Once(ids, Ids(units), count)
    decreases |units|
  {
    if count == 0 || units == [] {
      OnceAtTheEnd(units, count, ids);
    } else {
      var u, rest, fewer := units[0], units[1..], count - 1;
      HeadIsDistinct(units);
      CombinationsOnce(rest, count, ids);
      CombinationsOnce(rest, fewer, ids - {u.id});
      OnceWithHead(u, rest, units, fewer, count, ids);
    }
  }

  lemma OnceWithHead(u: Unit, rest: seq<Unit>, units: seq<Unit>, fewer: nat, count: nat, ids: set<string>)
    requires units != [] && u == units[0] && rest == units[1..] && count > 0 && fewer == count - 1
    requires DistinctIds(rest) && u.id !in Ids(rest)
    requires Occurrences(Combinations(rest, fewer), ids - {u.id}) == Once(ids - {u.id}, Ids(rest), fewer)
    requires Occurrences(Combinations(rest, count), ids) == Once(ids, Ids(rest), count)
    ensures Occurrences(Combinations(units, count), ids) == Once(ids, {u.id} + Ids(rest), count)
  {
    TailsLackHead(u, rest, fewer);
    OnceFromParts(u, Ids(rest), Combinations(rest, fewer), Combinations(rest, count), ids, count);
    CombinationsUnfold(u, rest, units, fewer, count);
  }

  lemma OnceFromParts(u: Unit, rest: set<string>, tails: seq<seq<Unit>>, others: seq<seq<Unit>>, ids: set<string>, count: nat)
    requires u.id !in rest && count > 0 && Lack(tails, u.id)
    requires Occurrences(tails, ids - {u.id}) == Once(ids - {u.id}, rest, count - 1)
    requires Occurrences(others, ids) == Once(ids, rest, count)
    ensures Occurrences(Prefixed(u, tails) + others, ids) == Once(ids, {u.id} + rest, count)
  {
    OccurrencesConcat(Prefixed(u, tails), others, ids);
    OccurrencesPrefixed(u, tails, ids);
    SubsetsByHead(u.id, rest, ids, count);
  }

  lemma SizesUnfold(units: seq<Unit>, less: nat, bound: nat)
    requires bound == less + 1
    ensures SizesBelow(units, bound) == SizesBelow(units, less) + Combinations(units, less)
  {
  }

  lemma {:induction false} SizesOnce(units: seq<Unit>, bound: nat, ids: set<string>)
    requires DistinctIds(units)
    ensures Occurrences(SizesBelow(units, bound), ids) == if ids <= Ids(units) && |ids| < bound then 1 else 0
  {
    if bound > 0 {
      var less := bound - 1;
      SizesOnce(units, less, ids);
      CombinationsOnce(units, less, ids);
      SizesUnfold(units, less, bound);
      OccurrencesConcat(SizesBelow(units, less), Combinations(units, less), ids);
    }
  }

  lemma {:induction false} IdsCount(units: seq<Unit>)
    ensures |Ids(units)| <= |units|
  {
    if units != [] {
      IdsCount(units[1..]);
      assert units == [units[0]] + units[1..];
      IdsCons(units[0], units[1..]);
    } else {
      assert Ids(units) == {};
    }
  }

  /** The loops visit every subset of the units exactly once, and nothing else. */
  lemma EverySubsetOnce(units: seq<Unit>, ids: set<string>)
    requires DistinctIds(units)
    ensures Occurrences(SizesBelow(units, |units| + 1), ids) == if ids <= Ids(units) then 1 else 0
  {
    SizesOnce(units, |units| + 1, ids);
    IdsCount(units);
    if ids <= Ids(units) {
      SubsetSize(ids, Ids(units));
    }
  }

  lemma {:induction false} OccursMeansMember(combos: seq<seq<Unit>>, ids: set<string>) returns (c: seq<Unit>)
    requires Occurrences(combos, ids) > 0
    ensures c in combos && Ids(c) == ids
  {
    if Ids(combos[0]) == ids {
      c := combos[0];
    } else {
      c := OccursMeansMember(combos[1..], ids);
    }
  }

  lemma {:induction false} SizedIsChosen(units: seq<Unit>, bound: nat, c: seq<Unit>)
    requires DistinctIds(units) && c in SizesBelow(units, bound)
    ensures Ids(c) <= Ids(units) && c == Chosen(units, Ids(c))
  {
    assert bound > 0;
    var less := bound - 1;
    SizesUnfold(units, less, bound);
    InEither(SizesBelow(units, less), Combinations(units, less), c);
    if c in Combinations(units, less) {
      CombinationIsChosen(units, less, c);
    } else {
      SizedIsChosen(units, less, c);
    }
  }

  /** What is visited: the choices of subsets of the ids. */
  lemma VisitedAreChoices(units: seq<Unit>, c: seq<Unit>)
    requires DistinctIds(units)
    ensures c in SizesBelow(units, |units| + 1) <==> exists ids :: ids <= Ids(units) && c == Chosen(units, ids)
  {
    if c in SizesBelow(units, |units| + 1) {
      SizedIsChosen(units, |units| + 1, c);
    }
    if exists ids :: ids <= Ids(units) && c == Chosen(units, ids) {
      var ids :| ids <= Ids(units) && c == Chosen(units, ids);
      EverySubsetOnce(units, ids);
      var d := OccursMeansMember(SizesBelow(units, |units| + 1), ids);
      SizedIsChosen(units, |units| + 1, d);
    }
  }

  // ------------------------------------------------------------------------
  // Depth is the longest prerequisite path
  // ------------------------------------------------------------------------

  /** Each unit on the path requires the next. */
  ghost predicate RequiresAt(path: seq<Unit>, i: nat)
    requires i + 1 < |path|
  {
    path[i + 1].id in path[i].prerequisites
  }

  ghost predicate Path(subset: seq<Unit>, path: seq<Unit>) {
    && path != []
    && (forall i :: 0 <= i < |path| ==> path[i] in subset)
    && (forall i :: 0 <= i < |path| - 1 ==> RequiresAt(path, i))
  }

  lemma PathTail(subset: seq<Unit>, path: seq<Unit>)
    requires Path(subset, path) && |path| > 1
    ensures Path(subset, path[1..]) && path[1] in Dependencies(subset, path[0])
  {
    assert RequiresAt(path, 0);
    forall i | 0 <= i < |path| - 2 ensures RequiresAt(path[1..], i) {
      assert RequiresAt(path, i + 1);
    }
  }

  lemma PathCons(subset: seq<Unit>, u: Unit, path: seq<Unit>)
    requires Path(subset, path) && u in subset && path[0].id in u.prerequisites
    ensures Path(subset, [u] + path)
  {
    forall i | 0 <= i < |path| ensures RequiresAt([u] + path, i) {
      if i > 0 {
        assert RequiresAt(path, i - 1);
      }
    }
  }

  lemma {:induction false} DeepestIsMax(subset: seq<Unit>, among: seq<Unit>, seen: set<string>, v: Unit)
    requires forall w :: w in among ==> w in subset
    requires Deepest(subset, among, seen).Some? && v in among
    ensures Depth(subset, v, seen).Some? && Depth(subset, v, seen).value <= Deepest(subset, among, seen).value
    decreases |among|
  {
    var n := |among| - 1;
    if v != among[n] {
      assert among == among[..n] + [among[n]];
      DeepestIsMax(subset, among[..n], seen, v);
    }
  }

  lemma {:induction false} DeepestAttained(subset: seq<Unit>, among: seq<Unit>, seen: set<string>) returns (v: Unit)
    requires forall w :: w in among ==> w in subset
    requires among != [] && Deepest(subset, among, seen).Some? && Deepest(subset, among, seen).value > 0
    ensures v in among && Depth(subset, v, seen) == Deepest(subset, among, seen)
    decreases |among|
  {
    var n := |among| - 1;
    if Depth(subset, among[n], seen).value > Deepest(subset, among[..n], seen).value {
      v := among[n];
    } else {
      v := DeepestAttained(subset, among[..n], seen);
    }
  }

  lemma {:induction false} DeepestFails(subset: seq<Unit>, among: seq<Unit>, seen: set<string>) returns (v: Unit)
    requires forall w :: w in among ==> w in subset
    requires Deepest(subset, among, seen).None?
    ensures v in among && Depth(subset, v, seen).None?
    decreases |among|
  {
    var n := |among| - 1;
    if Depth(subset, among[n], seen).None? {
      v := among[n];
    } else {
      v := DeepestFails(subset, among[..n], seen);
    }
  }

  lemma {:induction false} PathsAreBounded(subset: seq<Unit>, seen: set<string>, path: seq<Unit>)
    requires Path(subset, path) && Depth(subset, path[0], seen).Some?
    ensures |path| <= Depth(subset, path[0], seen).value
    decreases |path|
  {
    if |path| > 1 {
      PathTail(subset, path);
      DeepestIsMax(subset, Dependencies(subset, path[0]), seen + {path[0].id}, path[1]);
      PathsAreBounded(subset, seen + {path[0].id}, path[1..]);
    }
  }

  lemma {:induction false} LongestPath(subset: seq<Unit>, u: Unit, seen: set<string>) returns (path: seq<Unit>)
    requires u in subset && Depth(subset, u, seen).Some?
    ensures Path(subset, path) && path[0] == u && |path| == Depth(subset, u, seen).value
    decreases Depth(subset, u, seen).value
  {
    if Depth(subset, u, seen).value == 1 {
      path := [u];
    } else {
      var deps := Dependencies(subset, u);
      var v := DeepestAttained(subset, deps, seen + {u.id});
      var tail := LongestPath(subset, v, seen + {u.id});
      PathCons(subset, u, tail);
      path := [u] + tail;
    }
  }

  /** The number of controller calls is the length of the longest prerequisite path inside
      the subset: no path is longer, and one is as long. */
  lemma CallsAreTheLongestPath(subset: seq<Unit>, calls: nat)
    requires Deepest(subset, subset, {}) == Some(calls)
    ensures forall path :: Path(subset, path) ==> |path| <= calls
    ensures if subset == [] then calls == 0 else exists path :: Path(subset, path) && |path| == calls
  {
    forall path | Path(subset, path) ensures |path| <= calls {
      assert path[0] in subset;
      DeepestIsMax(subset, subset, {}, path[0]);
      PathsAreBounded(subset, {}, path);
    }
    if subset != [] {
      assert Path(subset, [subset[0]]);
      var u := DeepestAttained(subset, subset, {});
      var path := LongestPath(subset, u, {});
    }
  }

  /** The path comes back to a unit it left. */
  ghost predicate Cycle(subset: seq<Unit>, path: seq<Unit>) {
    Path(subset, path) && |path| >= 2 && path[0].id == path[|path| - 1].id
  }

  lemma {:induction false} FailureFindsRepeat(subset: seq<Unit>, u: Unit, seen: set<string>) returns (path: seq<Unit>)
    requires u in subset && Depth(subset, u, seen).None?
    ensures Path(subset, path) && path[0] == u
    ensures EndRepeats(path, seen)
    decreases |Ids(subset) - seen|
  {
    if u.id in seen {
      path := [u];
    } else {
      assert u.id in Ids(subset) - seen;
      SmallerSet(Ids(subset) - (seen + {u.id}), Ids(subset) - seen);
      var v := DeepestFails(subset, Dependencies(subset, u), seen + {u.id});
      var tail := FailureFindsRepeat(subset, v, seen + {u.id});
      PathCons(subset, u, tail);
      path := [u] + tail;
      RepeatCons(u, tail, seen);
    }
  }

  /** The end of a path was seen before it, or lies on it. */
  ghost predicate EndRepeats(path: seq<Unit>, seen: set<string>)
    requires path != []
  {
    path[|path| - 1].id in seen || exists i :: 0 <= i < |path| - 1 && path[i].id == path[|path| - 1].id
  }

  lemma RepeatCons(u: Unit, tail: seq<Unit>, seen: set<string>)
    requires tail != [] && EndRepeats(tail, seen + {u.id})
    ensures EndRepeats([u] + tail, seen)
  {
    var path := [u] + tail;
    if exists i :: 0 <= i < |tail| - 1 && tail[i].id == tail[|tail| - 1].id {
      var i :| 0 <= i < |tail| - 1 && tail[i].id == tail[|tail| - 1].id;
      assert path[i + 1].id == path[|path| - 1].id;
    } else if tail[|tail| - 1].id == u.id {
      assert path[0].id == path[|path| - 1].id;
    }
  }

  lemma PathSlice(subset: seq<Unit>, path: seq<Unit>, from: nat)
    requires Path(subset, path) && from < |path|
    ensures Path(subset, path[from..])
  {
    forall i | 0 <= i < |path| - from - 1 ensures RequiresAt(path[from..], i) {
      assert RequiresAt(path, i + from);
    }
  }

  lemma DepthRises(subset: seq<Unit>, u: Unit, v: Unit)
    requires u in subset && v in subset && v.id in u.prerequisites
    requires Depth(subset, u, {}).Some? && Depth(subset, v, {}).Some?
    ensures Depth(subset, u, {}).value > Depth(subset, v, {}).value
  {
    var tail := LongestPath(subset, v, {});
    PathCons(subset, u, tail);
    PathsAreBounded(subset, {}, [u] + tail);
  }

  lemma {:induction false} DepthFallsAlong(subset: seq<Unit>, path: seq<Unit>)
    requires Path(subset, path) && forall u :: u in subset ==> Depth(subset, u, {}).Some?
    ensures |path| > 1 ==> Depth(subset, path[0], {}).value > Depth(subset, path[|path| - 1], {}).value
    decreases |path|
  {
    if |path| > 1 {
      PathTail(subset, path);
      DepthRises(subset, path[0], path[1]);
      DepthFallsAlong(subset, path[1..]);
    }
  }

  /** The depth assertion fails exactly when the subset has a prerequisite cycle. */
  lemma StopsExactlyOnCycles(subset: seq<Unit>)
    requires DistinctIds(subset)
    ensures Deepest(subset, subset, {}).None? <==> exists path :: Cycle(subset, path)
  {
    if Deepest(subset, subset, {}).None? {
      var u := DeepestFails(subset, subset, {});
      var path := FailureFindsRepeat(subset, u, {});
      var i :| 0 <= i < |path| - 1 && path[i].id == path[|path| - 1].id;
      PathSlice(subset, path, i);
      assert Cycle(subset, path[i..]);
    }
    if Deepest(subset, subset, {}).Some? {
      forall path | Path(subset, path) && |path| >= 2 ensures !Cycle(subset, path) {
        NeverComesBack(subset, path);
      }
    }
  }

  lemma NeverComesBack(subset: seq<Unit>, path: seq<Unit>)
    requires DistinctIds(subset) && Deepest(subset, subset, {}).Some?
    requires Path(subset, path) && |path| >= 2
    ensures path[0].id != path[|path| - 1].id
  {
    forall u | u in subset ensures Depth(subset, u, {}).Some? {
      DeepestIsMax(subset, subset, {}, u);
    }
    DepthFallsAlong(subset, path);
  }
}
