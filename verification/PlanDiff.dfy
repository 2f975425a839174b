/** What a new plan revision keeps of the one it replaces (planRevisionTransition in
    finnor-os/packages/db/index.ts). */
module PlanDiff {
  import opened Basics

  datatype Node = Node(id: string, hash: string, kind: string)

  /** A stored graph's nodes; entries without the three texts are dropped. */
  datatype Graph = NoNodes | Nodes(entries: seq<Option<Node>>)

  datatype Kept = Kept(parentNodeId: string, nodeId: string, hash: string, kind: string)

  datatype Transition = Transition(preservedCompleted: seq<Kept>, preserved: seq<Kept>, invalidated: seq<Node>,
                                   supersededPending: seq<Node>, newNodes: seq<Node>)

  // ------------------------------------------------------------------------
  // Sorting by hash, then id
  // ------------------------------------------------------------------------

  /** Character order; stands for the collation of localeCompare. */
  predicate TextLess(a: string, b: string) {
    if b == "" then false
    else if a == "" then true
    else if a[0] != b[0] then a[0] < b[0]
    else TextLess(a[1..], b[1..])
  }

  predicate Precedes(a: Node, b: Node) {
    TextLess(a.hash, b.hash) || (a.hash == b.hash && TextLess(a.id, b.id))
  }

  /** Places a node behind those that do not come after it. */
  function Insert(nodes: seq<Node>, n: Node): seq<Node> {
    if nodes == [] || !Precedes(n, nodes[|nodes| - 1]) then nodes + [n]
    else Insert(nodes[..|nodes| - 1], n) + [nodes[|nodes| - 1]]
  }

  function Sort(nodes: seq<Node>): seq<Node> {
    if nodes == [] then [] else Insert(Sort(nodes[..|nodes| - 1]), nodes[|nodes| - 1])
  }

  function Present(entries: seq<Option<Node>>): seq<Node> {
    if entries == [] then []
    else
      var last := entries[|entries| - 1];
      Present(entries[..|entries| - 1]) + if last.Some? then [last.value] else []
  }

  function PersistedNodes(g: Graph): seq<Node> {
    if g.NoNodes? then [] else Sort(Present(g.entries))
  }

  // ------------------------------------------------------------------------
  // The diff
  // ------------------------------------------------------------------------

  /** The map from hash to node holds the last node with a hash. */
  function LastWith(nodes: seq<Node>, hash: string): (r: Option<Node>)
    ensures r.Some? ==> r.value in nodes && r.value.hash == hash
    ensures r.None? <==> forall n :: n in nodes ==> n.hash != hash
  {
    if nodes == [] then None
    else if nodes[|nodes| - 1].hash == hash then Some(nodes[|nodes| - 1])
    else LastWith(nodes[..|nodes| - 1], hash)
  }

  function Preserved(parent: seq<Node>, current: seq<Node>): seq<Kept> {
    if current == [] then []
    else
      var n := current[|current| - 1];
      var previous := LastWith(parent, n.hash);
      Preserved(parent, current[..|current| - 1])
      + if previous.Some? then [Kept(previous.value.id, n.id, n.hash, n.kind)] else []
  }

  /** The nodes whose hash the other graph has, or lacks. */
  function Matching(nodes: seq<Node>, other: seq<Node>, present: bool): seq<Node> {
    if nodes == [] then []
    else
      var n := nodes[|nodes| - 1];
      Matching(nodes[..|nodes| - 1], other, present) + if LastWith(other, n.hash).Some? == present then [n] else []
  }

  function Completed(kept: seq<Kept>, safe: set<string>): seq<Kept> {
    if kept == [] then []
    else
      var k := kept[|kept| - 1];
      Completed(kept[..|kept| - 1], safe) + if k.parentNodeId in safe then [k] else []
  }

  function Pending(nodes: seq<Node>, safe: set<string>): seq<Node> {
    if nodes == [] then []
    else
      var n := nodes[|nodes| - 1];
      Pending(nodes[..|nodes| - 1], safe) + if n.id !in safe then [n] else []
  }

  function Diff(parent: seq<Node>, current: seq<Node>, safe: set<string>): Transition {
    var preserved := Preserved(parent, current);
    Transition(Completed(preserved, safe), preserved, Matching(parent, current, false), Pending(parent, safe),
               Matching(current, parent, false))
  }

  function FirstTransition(current: seq<Node>): Transition {
    Transition([], [], [], [], current)
  }

  /** The transition record of a revision: without a parent everything is new. */
  function TransitionOf(parent: Option<Graph>, current: Graph, safe: set<string>): Transition {
    if parent.None? then FirstTransition(PersistedNodes(current))
    else Diff(PersistedNodes(parent.value), PersistedNodes(current), safe)
  }

  // ------------------------------------------------------------------------
  // Preserved and new nodes partition the current graph
  // ------------------------------------------------------------------------

  function Successors(kept: seq<Kept>): seq<Node> {
    if kept == [] then []
    else
      var k := kept[|kept| - 1];
      Successors(kept[..|kept| - 1]) + [Node(k.nodeId, k.hash, k.kind)]
  }

  lemma SuccessorsSnoc(kept: seq<Kept>, k: Kept)
    ensures Successors(kept + [k]) == Successors(kept) + [Node(k.nodeId, k.hash, k.kind)]
  {
    assert (kept + [k])[..|kept|] == kept;
  }

  lemma {:induction false} PreservedAreMatching(parent: seq<Node>, current: seq<Node>)
    ensures Successors(Preserved(parent, current)) == Matching(current, parent, true)
  {
    if current != [] {
      var init, n := current[..|current| - 1], current[|current| - 1];
      PreservedAreMatching(parent, init);
      var previous := LastWith(parent, n.hash);
      if previous.Some? {
        SuccessorsSnoc(Preserved(parent, init), Kept(previous.value.id, n.id, n.hash, n.kind));
      } else {
        assert Preserved(parent, current) == Preserved(parent, init);
      }
    }
  }

  lemma {:induction false} MatchingPartitions(nodes: seq<Node>, other: seq<Node>)
    ensures multiset(Matching(nodes, other, true)) + multiset(Matching(nodes, other, false)) == multiset(nodes)
    ensures forall n :: n in Matching(nodes, other, true) ==> n in nodes && LastWith(other, n.hash).Some?
    ensures forall n :: n in Matching(nodes, other, false) ==> n in nodes && LastWith(other, n.hash).None?
  {
    if nodes != [] {
      var init, n := nodes[..|nodes| - 1], nodes[|nodes| - 1];
      MatchingPartitions(init, other);
      AddToPart(Matching(init, other, true), Matching(init, other, false), n, init, nodes);
    }
  }

  lemma AddToPart<T>(a: seq<T>, b: seq<T>, x: T, init: seq<T>, whole: seq<T>)
    requires |whole| > 0 && init == whole[..|whole| - 1] && x == whole[|whole| - 1]
    requires multiset(a) + multiset(b) == multiset(init)
    ensures multiset(a + [x]) + multiset(b + []) == multiset(a + []) + multiset(b + [x]) == multiset(whole)
    ensures a + [] == a && b + [] == b
    ensures forall y :: y in whole <==> y in init || y == x
  {
    assert whole == init + [x];
  }

  /** Every node of the current graph is either preserved or new, never both, and no other
      nodes appear; a preserved one has the hash of the parent node it is paired with. */
  lemma PreservedAndNewPartition(parent: seq<Node>, current: seq<Node>, safe: set<string>)
    ensures var d := Diff(parent, current, safe);
      && multiset(Successors(d.preserved)) + multiset(d.newNodes) == multiset(current)
      && (forall n :: n in d.newNodes ==> forall p :: p in parent ==> p.hash != n.hash)
      && (forall k :: k in d.preserved ==> exists p :: p in parent && p.id == k.parentNodeId && p.hash == k.hash)
  {
    PreservedAreMatching(parent, current);
    MatchingPartitions(current, parent);
    PreservedHaveParents(parent, current);
  }

  lemma {:induction false} PreservedHaveParents(parent: seq<Node>, current: seq<Node>)
    ensures forall k :: k in Preserved(parent, current) ==> exists p :: p in parent && p.id == k.parentNodeId && p.hash == k.hash
  {
    if current != [] {
      PreservedHaveParents(parent, current[..|current| - 1]);
    }
  }

  // ------------------------------------------------------------------------
  // Preserved and invalidated nodes account for the parent
  // ------------------------------------------------------------------------

  ghost predicate DistinctHashes(nodes: seq<Node>) {
    forall i, k :: 0 <= i < k < |nodes| ==> nodes[i].hash != nodes[k].hash
  }

  function Hashes(nodes: seq<Node>): set<string> {
    set n | n in nodes :: n.hash
  }

  lemma HashesSnoc(init: seq<Node>, n: Node)
    ensures Hashes(init + [n]) == Hashes(init) + {n.hash}
  {
    assert forall x :: x in init ==> x in init + [n];
    assert n in init + [n];
  }

  lemma OneMoreShared(a: set<string>, x: string, b: set<string>)
    requires x !in a
    ensures |(a + {x}) * b| == |a * b| + if x in b then 1 else 0
  {
    if x in b {
      assert (a + {x}) * b == a * b + {x};
    } else {
      assert (a + {x}) * b == a * b;
    }
  }

  lemma {:induction false} MatchingCount(nodes: seq<Node>, other: seq<Node>)
    requires DistinctHashes(nodes)
    ensures |Matching(nodes, other, true)| == |Hashes(nodes) * Hashes(other)|
  {
    if nodes != [] {
      var init, n := nodes[..|nodes| - 1], nodes[|nodes| - 1];
      MatchingCount(init, other);
      assert nodes == init + [n];
      HashesSnoc(init, n);
      assert n.hash !in Hashes(init);
      assert LastWith(other, n.hash).Some? <==> n.hash in Hashes(other);
      OneMoreShared(Hashes(init), n.hash, Hashes(other));
    } else {
      assert Hashes(nodes) * Hashes(other) == {};
    }
  }

  /** With unique hashes on both sides, what is preserved and what is invalidated add up to
      the parent's nodes. */
  lemma PreservedAndInvalidatedCount(parent: seq<Node>, current: seq<Node>, safe: set<string>)
    requires DistinctHashes(parent) && DistinctHashes(current)
    ensures |Diff(parent, current, safe).preserved| + |Diff(parent, current, safe).invalidated| == |parent|
  {
    MatchingCount(parent, current);
    MatchingCount(current, parent);
    assert Hashes(parent) * Hashes(current) == Hashes(current) * Hashes(parent);
    MatchingPartitions(parent, current);
    assert |multiset(parent)| == |parent|;
    assert |multiset(Matching(parent, current, true)) + multiset(Matching(parent, current, false))|
      == |Matching(parent, current, true)| + |Matching(parent, current, false)|;
    PreservedAreMatching(parent, current);
    SuccessorCount(Preserved(parent, current));
  }

  lemma {:induction false} SuccessorCount(kept: seq<Kept>)
    ensures |Successors(kept)| == |kept|
  {
    if kept != [] {
      SuccessorCount(kept[..|kept| - 1]);
    }
  }

  // ------------------------------------------------------------------------
  // Completed and pending do not overlap
  // ------------------------------------------------------------------------

  /** No parent node is both preserved as completed and superseded as pending; every parent
      node that is not safely completed is superseded. */
  lemma CompletedAndPendingDisjoint(parent: seq<Node>, current: seq<Node>, safe: set<string>)
    ensures var d := Diff(parent, current, safe);
      && (forall k, n :: k in d.preservedCompleted && n in d.supersededPending ==> k.parentNodeId != n.id)
      && (forall k :: k in d.preservedCompleted <==> k in d.preserved && k.parentNodeId in safe)
      && (forall n :: n in d.supersededPending <==> n in parent && n.id !in safe)
  {
    CompletedAre(Preserved(parent, current), safe);
    PendingAre(parent, safe);
  }

  lemma {:induction false} CompletedAre(kept: seq<Kept>, safe: set<string>)
    ensures forall k :: k in Completed(kept, safe) <==> k in kept && k.parentNodeId in safe
  {
    if kept != [] {
      CompletedAre(kept[..|kept| - 1], safe);
      assert kept == kept[..|kept| - 1] + [kept[|kept| - 1]];
    }
  }

  lemma {:induction false} PendingAre(nodes: seq<Node>, safe: set<string>)
    ensures forall n :: n in Pending(nodes, safe) <==> n in nodes && n.id !in safe
  {
    if nodes != [] {
      PendingAre(nodes[..|nodes| - 1], safe);
      assert nodes == nodes[..|nodes| - 1] + [nodes[|nodes| - 1]];
    }
  }

  // ------------------------------------------------------------------------
  // The order of the stored nodes does not matter
  // ------------------------------------------------------------------------

  lemma {:induction false} TextTotal(a: string, b: string)
    ensures TextLess(a, b) || a == b || TextLess(b, a)
    ensures !(TextLess(a, b) && TextLess(b, a)) && !TextLess(a, a)
    decreases |a| + |b|
  {
    if a != "" && b != "" && a[0] == b[0] {
      TextTotal(a[1..], b[1..]);
      assert a == [a[0]] + a[1..] && b == [b[0]] + b[1..];
    }
    if a != "" {
      TextIrreflexive(a);
    }
  }

  lemma {:induction false} TextIrreflexive(a: string)
    ensures !TextLess(a, a)
  {
    if a != "" {
      TextIrreflexive(a[1..]);
    }
  }

  lemma {:induction false} TextTransitive(a: string, b: string, c: string)
    requires TextLess(a, b) && TextLess(b, c)
    ensures TextLess(a, c)
  {
    if a != "" && a[0] == b[0] == c[0] {
      TextTransitive(a[1..], b[1..], c[1..]);
    }
  }

  ghost predicate Sorted(nodes: seq<Node>) {
    forall i, k :: 0 <= i < k < |nodes| ==> !Precedes(nodes[k], nodes[i])
  }

  lemma NotAfter(a: Node, b: Node, c: Node)
    requires !Precedes(b, a) && !Precedes(c, b)
    ensures !Precedes(c, a)
  {
    TextTotal(a.hash, b.hash);
    TextTotal(b.hash, c.hash);
    TextTotal(a.id, b.id);
    TextTotal(b.id, c.id);
    TextTotal(a.hash, c.hash);
    TextTotal(a.id, c.id);
    if TextLess(a.hash, b.hash) && TextLess(b.hash, c.hash) {
      TextTransitive(a.hash, b.hash, c.hash);
    }
    if TextLess(a.id, b.id) && TextLess(b.id, c.id) {
      TextTransitive(a.id, b.id, c.id);
    }
  }

  lemma {:induction false} InsertKeepsSorted(nodes: seq<Node>, n: Node)
    requires Sorted(nodes)
    ensures Sorted(Insert(nodes, n)) && multiset(Insert(nodes, n)) == multiset(nodes) + multiset{n}
  {
    if nodes != [] {
      var init, last := nodes[..|nodes| - 1], nodes[|nodes| - 1];
      assert nodes == init + [last];
      if Precedes(n, last) {
        SortedSlice(nodes, |nodes| - 1);
        InsertKeepsSorted(init, n);
        StaysLast(init, last, n, Insert(init, n));
      } else {
        BecomesLast(init, last, n);
      }
    }
  }

  lemma StaysLast(init: seq<Node>, last: Node, n: Node, r: seq<Node>)
    requires Sorted(init + [last]) && Precedes(n, last)
    requires Sorted(r) && multiset(r) == multiset(init) + multiset{n}
    ensures Sorted(r + [last])
  {
    forall i | 0 <= i < |r| ensures !Precedes(last, r[i]) {
      assert r[i] in multiset(r);
      if r[i] == n {
        PrecedesAsymmetric(n, last);
      } else {
        var k :| 0 <= k < |init| && init[k] == r[i];
        assert (init + [last])[k] == r[i] && (init + [last])[|init|] == last;
      }
    }
  }

  lemma BecomesLast(init: seq<Node>, last: Node, n: Node)
    requires Sorted(init + [last]) && !Precedes(n, last)
    ensures Sorted(init + [last] + [n])
  {
    var nodes := init + [last];
    forall i | 0 <= i < |nodes| ensures !Precedes(n, nodes[i]) {
      if i < |init| {
        assert nodes[|init|] == last;
        NotAfter(nodes[i], last, n);
      }
    }
  }

  lemma PrecedesAsymmetric(a: Node, b: Node)
    requires Precedes(a, b)
    ensures !Precedes(b, a)
  {
    TextTotal(a.hash, b.hash);
    TextTotal(a.id, b.id);
  }

  lemma SortStep(nodes: seq<Node>, init: seq<Node>, last: Node)
    requires nodes == init + [last]
    ensures Sort(nodes) == Insert(Sort(init), last)
  {
    assert nodes[..|nodes| - 1] == init;
  }

  lemma {:induction false} SortSorts(nodes: seq<Node>)
    ensures Sorted(Sort(nodes)) && multiset(Sort(nodes)) == multiset(nodes)
  {
    if nodes != [] {
      var init, last := nodes[..|nodes| - 1], nodes[|nodes| - 1];
      SortSorts(init);
      assert nodes == init + [last];
      SortStep(nodes, init, last);
      InsertKeepsSorted(Sort(init), last);
    }
  }

  /** Nodes that tie in the order are the same node. */
  ghost predicate KindIsDetermined(nodes: seq<Node>) {
    forall a, b :: a in nodes && b in nodes && a.hash == b.hash && a.id == b.id ==> a == b
  }

  lemma {:induction false} SortedIsUnique(a: seq<Node>, b: seq<Node>)
    requires Sorted(a) && Sorted(b) && multiset(a) == multiset(b) && KindIsDetermined(a)
    ensures a == b
    decreases |a|
  {
    assert |a| == |multiset(a)| == |multiset(b)| == |b|;
    if a != [] {
      var n := |a| - 1;
      LastIsGreatest(a, b);
      SameWithoutLast(a, b);
      SortedPrefix(a, n);
      SortedSlice(b, n);
      SortedIsUnique(a[..n], b[..n]);
      assert a == a[..n] + [a[n]] && b == b[..n] + [b[n]];
    }
  }

  lemma SameWithoutLast(a: seq<Node>, b: seq<Node>)
    requires a != [] && |a| == |b| && multiset(a) == multiset(b) && a[|a| - 1] == b[|b| - 1]
    ensures multiset(a[..|a| - 1]) == multiset(b[..|b| - 1])
  {
    var x, y, last := a[..|a| - 1], b[..|b| - 1], a[|a| - 1];
    assert a == x + [last] && b == y + [last];
    MultisetSnoc(x, last);
    MultisetSnoc(y, last);
    CancelOne(multiset(x), multiset(y), last);
  }

  lemma MultisetSnoc<T>(s: seq<T>, x: T)
    ensures multiset(s + [x]) == multiset(s) + multiset{x}
  {
  }

  lemma CancelOne<T>(a: multiset<T>, b: multiset<T>, x: T)
    requires a + multiset{x} == b + multiset{x}
    ensures a == b
  {
    assert a == (a + multiset{x}) - multiset{x};
    assert b == (b + multiset{x}) - multiset{x};
  }

  lemma SortedSlice(a: seq<Node>, n: nat)
    requires Sorted(a) && n <= |a|
    ensures Sorted(a[..n])
  {
  }

  lemma SortedPrefix(a: seq<Node>, n: nat)
    requires Sorted(a) && KindIsDetermined(a) && n <= |a|
    ensures Sorted(a[..n]) && KindIsDetermined(a[..n])
  {
    assert forall x :: x in a[..n] ==> x in a;
  }

  lemma LastIsGreatest(a: seq<Node>, b: seq<Node>)
    requires a != [] && |a| == |b| && Sorted(a) && Sorted(b) && multiset(a) == multiset(b) && KindIsDetermined(a)
    ensures a[|a| - 1] == b[|b| - 1]
  {
    var x, y := a[|a| - 1], b[|b| - 1];
    assert x in multiset(b) && y in multiset(a);
    var i :| 0 <= i < |b| && b[i] == x;
    var k :| 0 <= k < |a| && a[k] == y;
    assert !Precedes(y, x) by {
      PrecedesIrreflexive(x);
      assert i == |b| - 1 || !Precedes(b[|b| - 1], b[i]);
    }
    assert !Precedes(x, y) by {
      PrecedesIrreflexive(y);
      assert k == |a| - 1 || !Precedes(a[|a| - 1], a[k]);
    }
    TextTotal(x.hash, y.hash);
    TextTotal(x.id, y.id);
  }

  lemma PrecedesIrreflexive(a: Node)
    ensures !Precedes(a, a)
  {
    TextIrreflexive(a.hash);
    TextIrreflexive(a.id);
  }

  /** Two lists of the same nodes sort alike, whatever order they were stored in, when
      hash and id determine the kind. */
  lemma OrderDoesNotMatter(a: seq<Node>, b: seq<Node>)
    requires multiset(a) == multiset(b) && KindIsDetermined(a)
    ensures Sort(a) == Sort(b)
  {
    SortSorts(a);
    SortSorts(b);
    forall x | x in Sort(a) ensures x in a {
      assert x in multiset(Sort(a));
    }
    SortedIsUnique(Sort(a), Sort(b));
  }

  // ------------------------------------------------------------------------
  // Where the order shows
  // ------------------------------------------------------------------------

  function Exchange(s: seq<Node>, i: nat, k: nat): seq<Node>
    requires i < |s| && k < |s|
  {
    s[i := s[k]][k := s[i]]
  }

  /** The same hash and id at every position. */
  ghost predicate SameKeys(a: seq<Node>, b: seq<Node>) {
    |a| == |b| && forall i :: 0 <= i < |a| ==> a[i].hash == b[i].hash && a[i].id == b[i].id
  }

  lemma {:induction false} SortedSortsToItself(a: seq<Node>)
    requires Sorted(a)
    ensures Sort(a) == a
  {
    if a != [] {
      var init, last := a[..|a| - 1], a[|a| - 1];
      SortedSlice(a, |a| - 1);
      SortedSortsToItself(init);
      assert a == init + [last];
      SortStep(a, init, last);
      InsertLast(init, last);
    }
  }

  lemma InsertLast(init: seq<Node>, last: Node)
    requires Sorted(init + [last])
    ensures Insert(init, last) == init + [last]
  {
    if init != [] {
      var whole := init + [last];
      assert !Precedes(whole[|init|], whole[|init| - 1]);
    }
  }

  /** Two nodes that tie may change places in a sorted list. */
  lemma ExchangeTied(s: seq<Node>, i: nat, k: nat)
    requires Sorted(s) && i < k < |s| && s[i].hash == s[k].hash && s[i].id == s[k].id
    ensures SameKeys(s, Exchange(s, i, k)) && Sort(Exchange(s, i, k)) == Exchange(s, i, k)
    ensures multiset(Exchange(s, i, k)) == multiset(s)
    ensures Exchange(s, i, k)[i] == s[k]
  {
    SameKeysSorted(s, Exchange(s, i, k));
    SortedSortsToItself(Exchange(s, i, k));
  }

  lemma SameKeysSorted(a: seq<Node>, b: seq<Node>)
    requires Sorted(a) && SameKeys(a, b)
    ensures Sorted(b)
  {
    forall x, y | 0 <= x < y < |b| ensures !Precedes(b[y], b[x]) {
      assert !Precedes(a[y], a[x]);
    }
  }

  /** Two different nodes of a list that tie, in the sorted list. */
  lemma TiedPositions(a: seq<Node>, x: Node, y: Node) returns (i: nat, k: nat)
    requires x in a && y in a && x != y && x.hash == y.hash && x.id == y.id
    ensures i < k < |Sort(a)| && Sort(a)[i] in {x, y} && Sort(a)[k] in {x, y} && Sort(a)[i] != Sort(a)[k]
  {
    SortSorts(a);
    assert x in multiset(a) && y in multiset(a);
    assert x in Sort(a) && y in Sort(a);
    var m :| 0 <= m < |Sort(a)| && Sort(a)[m] == x;
    var n :| 0 <= n < |Sort(a)| && Sort(a)[n] == y;
    if m < n {
      i, k := m, n;
    } else {
      i, k := n, m;
    }
  }

  /** Two different nodes that tie give a second order that sorts to itself. */
  lemma OtherOrder(a: seq<Node>, x: Node, y: Node) returns (b: seq<Node>, i: nat)
    requires x in a && y in a && x != y && x.hash == y.hash && x.id == y.id
    ensures multiset(b) == multiset(a) && Sort(b) == b && SameKeys(Sort(a), b)
    ensures i < |b| && Sort(a)[i] != b[i] && Sort(a)[i].hash == x.hash && Sort(a)[i].id == x.id
  {
    var m, k := TiedPositions(a, x, y);
    SortSorts(a);
    ExchangeTied(Sort(a), m, k);
    b, i := Exchange(Sort(a), m, k), m;
  }

  ghost predicate SortIgnoresOrder(a: seq<Node>) {
    forall b :: multiset(b) == multiset(a) ==> Sort(b) == Sort(a)
  }

  /** A list sorts alike in every order exactly when no two different nodes of it tie: tied
      nodes keep the order they came in. */
  lemma OrderMattersOtherwise(a: seq<Node>)
    ensures SortIgnoresOrder(a) <==> KindIsDetermined(a)
  {
    if KindIsDetermined(a) {
      forall b | multiset(b) == multiset(a) ensures Sort(b) == Sort(a) {
        OrderDoesNotMatter(a, b);
      }
    } else {
      var x, y :| x in a && y in a && x.hash == y.hash && x.id == y.id && x != y;
      var b, i := OtherOrder(a, x, y);
      assert Sort(b) != Sort(a);
    }
  }

  // ------------------------------------------------------------------------
  // The lists of the record, by what they leave out
  // ------------------------------------------------------------------------

  lemma CountSnoc<T>(s: seq<T>, x: T, y: T)
    ensures multiset(s + [x])[y] == multiset(s)[y] + if y == x then 1 else 0
  {
  }

  lemma {:induction false} MatchingKeepsCounts(nodes: seq<Node>, other: seq<Node>, present: bool, n: Node)
    ensures multiset(Matching(nodes, other, present))[n] ==
      if LastWith(other, n.hash).Some? == present then multiset(nodes)[n] else 0
  {
    if nodes != [] {
      var init, last := nodes[..|nodes| - 1], nodes[|nodes| - 1];
      MatchingKeepsCounts(init, other, present, n);
      assert nodes == init + [last];
      CountSnoc(init, last, n);
      CountKept(Matching(init, other, present), last, LastWith(other, last.hash).Some? == present, n);
    }
  }

  lemma CountKept(kept: seq<Node>, last: Node, stays: bool, n: Node)
    ensures multiset(kept + if stays then [last] else [])[n] == multiset(kept)[n] + if stays && n == last then 1 else 0
  {
    if stays {
      CountSnoc(kept, last, n);
    } else {
      assert kept + [] == kept;
    }
  }

  lemma {:induction false} PendingKeepsCounts(nodes: seq<Node>, safe: set<string>, n: Node)
    ensures multiset(Pending(nodes, safe))[n] == if n.id !in safe then multiset(nodes)[n] else 0
  {
    if nodes != [] {
      var init, last := nodes[..|nodes| - 1], nodes[|nodes| - 1];
      PendingKeepsCounts(init, safe, n);
      assert nodes == init + [last];
      CountSnoc(init, last, n);
      CountKept(Pending(init, safe), last, last.id !in safe, n);
    }
  }

  lemma SortedSnoc(part: seq<Node>, nodes: seq<Node>, n: Node)
    requires Sorted(part) && Sorted(nodes + [n]) && forall x :: x in part ==> x in nodes
    ensures Sorted(part + [n])
  {
    forall i | 0 <= i < |part| ensures !Precedes(n, part[i]) {
      assert part[i] in part;
      var k :| 0 <= k < |nodes| && nodes[k] == part[i];
      assert (nodes + [n])[k] == part[i] && (nodes + [n])[|nodes|] == n;
    }
  }

  lemma {:induction false} MatchingKeepsSorted(nodes: seq<Node>, other: seq<Node>, present: bool)
    requires Sorted(nodes)
    ensures Sorted(Matching(nodes, other, present)) && forall n :: n in Matching(nodes, other, present) ==> n in nodes
  {
    if nodes != [] {
      var init, last := nodes[..|nodes| - 1], nodes[|nodes| - 1];
      SortedSlice(nodes, |nodes| - 1);
      MatchingKeepsSorted(init, other, present);
      assert nodes == init + [last];
      SortedSnoc(Matching(init, other, present), init, last);
    }
  }

  lemma {:induction false} PendingKeepsSorted(nodes: seq<Node>, safe: set<string>)
    requires Sorted(nodes)
    ensures Sorted(Pending(nodes, safe)) && forall n :: n in Pending(nodes, safe) ==> n in nodes
  {
    if nodes != [] {
      var init, last := nodes[..|nodes| - 1], nodes[|nodes| - 1];
      SortedSlice(nodes, |nodes| - 1);
      PendingKeepsSorted(init, safe);
      assert nodes == init + [last];
      SortedSnoc(Pending(init, safe), init, last);
    }
  }

  /** Parent nodes that tie tie out of sight: the current graph has their hash, and they are
      safely completed, so that neither is invalidated or superseded. */
  ghost predicate TiesHidden(parent: seq<Node>, current: seq<Node>, safe: set<string>) {
    forall x, y :: x in parent && y in parent && x.hash == y.hash && x.id == y.id && x != y ==>
      x.hash in Hashes(current) && x.id in safe
  }

  lemma HashKnown(nodes: seq<Node>, hash: string)
    ensures LastWith(nodes, hash).Some? <==> hash in Hashes(nodes)
  {
  }

  lemma SameInvalidated(a: seq<Node>, b: seq<Node>, current: seq<Node>, safe: set<string>)
    requires Sorted(a) && Sorted(b) && multiset(a) == multiset(b) && TiesHidden(a, current, safe)
    ensures Matching(a, current, false) == Matching(b, current, false)
  {
    MatchingKeepsSorted(a, current, false);
    MatchingKeepsSorted(b, current, false);
    forall n ensures multiset(Matching(a, current, false))[n] == multiset(Matching(b, current, false))[n] {
      MatchingKeepsCounts(a, current, false, n);
      MatchingKeepsCounts(b, current, false, n);
    }
    MatchingPartitions(a, current);
    SortedIsUnique(Matching(a, current, false), Matching(b, current, false));
  }

  lemma SamePending(a: seq<Node>, b: seq<Node>, current: seq<Node>, safe: set<string>)
    requires Sorted(a) && Sorted(b) && multiset(a) == multiset(b) && TiesHidden(a, current, safe)
    ensures Pending(a, safe) == Pending(b, safe)
  {
    PendingKeepsSorted(a, safe);
    PendingKeepsSorted(b, safe);
    forall n ensures multiset(Pending(a, safe))[n] == multiset(Pending(b, safe))[n] {
      PendingKeepsCounts(a, safe, n);
      PendingKeepsCounts(b, safe, n);
    }
    PendingAre(a, safe);
    SortedIsUnique(Pending(a, safe), Pending(b, safe));
  }

  /** In a sorted list the last node with a hash has the greatest id. */
  lemma {:induction false} LastHasGreatestId(a: seq<Node>, hash: string)
    requires Sorted(a) && LastWith(a, hash).Some?
    ensures forall n :: n in a && n.hash == hash ==> !TextLess(LastWith(a, hash).value.id, n.id)
  {
    var init, last := a[..|a| - 1], a[|a| - 1];
    assert a == init + [last];
    if last.hash == hash {
      forall n | n in a && n.hash == hash ensures !TextLess(last.id, n.id) {
        var k :| 0 <= k < |a| && a[k] == n;
        TextIrreflexive(hash);
        TextIrreflexive(last.id);
        assert k == |a| - 1 || !Precedes(a[|a| - 1], a[k]);
      }
    } else {
      SortedSlice(a, |a| - 1);
      LastHasGreatestId(init, hash);
    }
  }

  lemma SameLastId(a: seq<Node>, b: seq<Node>, hash: string)
    requires Sorted(a) && Sorted(b) && multiset(a) == multiset(b)
    ensures LastWith(a, hash).Some? <==> LastWith(b, hash).Some?
    ensures LastWith(a, hash).Some? ==> LastWith(a, hash).value.id == LastWith(b, hash).value.id
  {
    assert forall n :: n in a <==> n in multiset(a);
    assert forall n :: n in b <==> n in multiset(b);
    if LastWith(a, hash).Some? && LastWith(b, hash).Some? {
      LastHasGreatestId(a, hash);
      LastHasGreatestId(b, hash);
      TextTotal(LastWith(a, hash).value.id, LastWith(b, hash).value.id);
    }
  }

  /** The preserved and new nodes depend on the parent's hashes and greatest ids only. */
  lemma {:induction false} SamePreserved(a: seq<Node>, b: seq<Node>, current: seq<Node>)
    requires Sorted(a) && Sorted(b) && multiset(a) == multiset(b)
    ensures Preserved(a, current) == Preserved(b, current) && Matching(current, a, false) == Matching(current, b, false)
  {
    if current != [] {
      SamePreserved(a, b, current[..|current| - 1]);
      SameLastId(a, b, current[|current| - 1].hash);
    }
  }

  // ------------------------------------------------------------------------
  // The record tells tied nodes apart where they show
  // ------------------------------------------------------------------------

  lemma {:induction false} SameMatchingMeansSame(a: seq<Node>, b: seq<Node>, other: seq<Node>, present: bool, i: nat)
    requires SameKeys(a, b) && Matching(a, other, present) == Matching(b, other, present)
    requires i < |a| && LastWith(other, a[i].hash).Some? == present
    ensures a[i] == b[i]
  {
    var n := |a| - 1;
    if LastWith(other, a[n].hash).Some? == present {
      assert Matching(a, other, present) == Matching(a[..n], other, present) + [a[n]];
      assert Matching(b, other, present) == Matching(b[..n], other, present) + [b[n]];
      LastAndRest(Matching(a[..n], other, present), a[n], Matching(b[..n], other, present), b[n]);
    } else {
      assert Matching(a, other, present) == Matching(a[..n], other, present);
      assert Matching(b, other, present) == Matching(b[..n], other, present);
    }
    if i < n {
      SameMatchingMeansSame(a[..n], b[..n], other, present, i);
    }
  }

  lemma LastAndRest(s: seq<Node>, x: Node, t: seq<Node>, y: Node)
    requires s + [x] == t + [y]
    ensures s == t && x == y
  {
    assert |s + [x]| == |t + [y]|;
    assert s == (s + [x])[..|s|] && t == (t + [y])[..|t|];
    assert x == (s + [x])[|s|] && y == (t + [y])[|t|];
  }

  lemma {:induction false} SamePendingMeansSame(a: seq<Node>, b: seq<Node>, safe: set<string>, i: nat)
    requires SameKeys(a, b) && Pending(a, safe) == Pending(b, safe)
    requires i < |a| && a[i].id !in safe
    ensures a[i] == b[i]
  {
    var n := |a| - 1;
    if a[n].id !in safe {
      assert Pending(a, safe) == Pending(a[..n], safe) + [a[n]];
      assert Pending(b, safe) == Pending(b[..n], safe) + [b[n]];
      LastAndRest(Pending(a[..n], safe), a[n], Pending(b[..n], safe), b[n]);
    } else {
      assert Pending(a, safe) == Pending(a[..n], safe);
      assert Pending(b, safe) == Pending(b[..n], safe);
    }
    if i < n {
      SamePendingMeansSame(a[..n], b[..n], safe, i);
    }
  }

  /** A tie in the current graph shows among the preserved or the new nodes. */
  lemma CurrentTieShows(parent: seq<Node>, a: seq<Node>, b: seq<Node>, safe: set<string>, i: nat)
    requires SameKeys(a, b) && i < |a| && a[i] != b[i]
    ensures Diff(parent, a, safe) != Diff(parent, b, safe)
  {
    if Diff(parent, a, safe) == Diff(parent, b, safe) {
      PreservedAreMatching(parent, a);
      PreservedAreMatching(parent, b);
      SameMatchingMeansSame(a, b, parent, LastWith(parent, a[i].hash).Some?, i);
    }
  }

  /** A tie in the parent shows among the invalidated or the superseded nodes. */
  lemma ParentTieShows(a: seq<Node>, b: seq<Node>, current: seq<Node>, safe: set<string>, i: nat)
    requires SameKeys(a, b) && i < |a| && a[i] != b[i]
    requires a[i].hash !in Hashes(current) || a[i].id !in safe
    ensures Diff(a, current, safe) != Diff(b, current, safe)
  {
    if Diff(a, current, safe) == Diff(b, current, safe) {
      if a[i].id !in safe {
        SamePendingMeansSame(a, b, safe, i);
      } else {
        HashKnown(current, a[i].hash);
        SameMatchingMeansSame(a, b, current, false, i);
      }
    }
  }

  // ------------------------------------------------------------------------
  // The record does not depend on the order of the stored nodes, exactly
  // ------------------------------------------------------------------------

  function Stored(nodes: seq<Node>): (r: seq<Option<Node>>)
    ensures Present(r) == nodes
  {
    if nodes == [] then []
    else
      var n := |nodes| - 1;
      var r := Stored(nodes[..n]) + [Some(nodes[n])];
      assert r[..|r| - 1] == Stored(nodes[..n]) && nodes == nodes[..n] + [nodes[n]];
      r
  }

  ghost predicate SameNodes(a: seq<Option<Node>>, b: seq<Option<Node>>) {
    multiset(Present(a)) == multiset(Present(b))
  }

  /** Every other order of both stored graphs gives the same record. */
  ghost predicate RecordIgnoresOrder(p: seq<Option<Node>>, c: seq<Option<Node>>, safe: set<string>) {
    forall p', c' :: SameNodes(p, p') && SameNodes(c, c') ==>
      TransitionOf(Some(Nodes(p')), Nodes(c'), safe) == TransitionOf(Some(Nodes(p)), Nodes(c), safe)
  }

  ghost predicate FirstRecordIgnoresOrder(c: seq<Option<Node>>) {
    forall c', safe :: SameNodes(c, c') ==> TransitionOf(None, Nodes(c'), safe) == TransitionOf(None, Nodes(c), safe)
  }

  lemma SameRecord(p: seq<Node>, p': seq<Node>, c: seq<Node>, c': seq<Node>, safe: set<string>)
    requires multiset(p) == multiset(p') && multiset(c) == multiset(c')
    requires KindIsDetermined(c) && TiesHidden(p, c, safe)
    ensures Diff(Sort(p'), Sort(c'), safe) == Diff(Sort(p), Sort(c), safe)
  {
    OrderDoesNotMatter(c, c');
    SortSorts(p);
    SortSorts(p');
    SortSorts(c);
    SameMembers(p, Sort(p));
    SortKeepsHashes(c);
    assert TiesHidden(Sort(p), Sort(c), safe);
    SameInvalidated(Sort(p), Sort(p'), Sort(c), safe);
    SamePending(Sort(p), Sort(p'), Sort(c), safe);
    SamePreserved(Sort(p), Sort(p'), Sort(c));
  }

  lemma SameMembers(a: seq<Node>, b: seq<Node>)
    requires multiset(a) == multiset(b)
    ensures forall n :: n in a <==> n in b
  {
    assert forall n :: n in a <==> n in multiset(a);
    assert forall n :: n in b <==> n in multiset(b);
  }

  lemma SortKeepsHashes(nodes: seq<Node>)
    ensures Hashes(Sort(nodes)) == Hashes(nodes)
  {
    SortSorts(nodes);
    SameMembers(nodes, Sort(nodes));
  }

  lemma CurrentOrderShows(p: seq<Option<Node>>, c: seq<Option<Node>>, safe: set<string>, x: Node, y: Node)
    requires x in Present(c) && y in Present(c) && x.hash == y.hash && x.id == y.id && x != y
    ensures !RecordIgnoresOrder(p, c, safe)
  {
    var b, i := OtherOrder(Present(c), x, y);
    CurrentTieShows(Sort(Present(p)), Sort(Present(c)), b, safe, i);
    assert SameNodes(c, Stored(b)) && SameNodes(p, p);
    assert TransitionOf(Some(Nodes(p)), Nodes(Stored(b)), safe) == Diff(Sort(Present(p)), b, safe);
  }

  lemma FirstOrderShows(c: seq<Option<Node>>, x: Node, y: Node)
    requires x in Present(c) && y in Present(c) && x.hash == y.hash && x.id == y.id && x != y
    ensures !FirstRecordIgnoresOrder(c)
  {
    var b, i := OtherOrder(Present(c), x, y);
    var none: set<string> := {};
    assert SameNodes(c, Stored(b));
    assert TransitionOf(None, Nodes(Stored(b)), none).newNodes == b;
    assert TransitionOf(None, Nodes(c), none).newNodes == Sort(Present(c));
  }

  lemma ParentOrderShows(p: seq<Option<Node>>, c: seq<Option<Node>>, safe: set<string>)
    requires !TiesHidden(Present(p), Present(c), safe)
    ensures !RecordIgnoresOrder(p, c, safe)
  {
    var x, y :| x in Present(p) && y in Present(p) && x.hash == y.hash && x.id == y.id && x != y
             && (x.hash !in Hashes(Present(c)) || x.id !in safe);
    var b, i := OtherOrder(Present(p), x, y);
    SortKeepsHashes(Present(c));
    ParentTieShows(Sort(Present(p)), b, Sort(Present(c)), safe, i);
    assert SameNodes(p, Stored(b)) && SameNodes(c, c);
    assert TransitionOf(Some(Nodes(Stored(b))), Nodes(c), safe) == Diff(b, Sort(Present(c)), safe);
  }

  /** The record of a revision does not depend on the order in which the nodes of either
      graph are stored, exactly when no two different current nodes tie and parent nodes
      that tie do so out of sight; that of a first revision, exactly when no two different
      current nodes tie. */
  lemma TransitionIgnoresOrder(p: seq<Option<Node>>, c: seq<Option<Node>>, safe: set<string>)
    ensures RecordIgnoresOrder(p, c, safe) <==>
      KindIsDetermined(Present(c)) && TiesHidden(Present(p), Present(c), safe)
    ensures FirstRecordIgnoresOrder(c) <==> KindIsDetermined(Present(c))
  {
    if !KindIsDetermined(Present(c)) {
      var x, y :| x in Present(c) && y in Present(c) && x.hash == y.hash && x.id == y.id && x != y;
      CurrentOrderShows(p, c, safe, x, y);
      FirstOrderShows(c, x, y);
    } else {
      forall c' | SameNodes(c, c') ensures Sort(Present(c')) == Sort(Present(c)) {
        OrderDoesNotMatter(Present(c), Present(c'));
      }
      if TiesHidden(Present(p), Present(c), safe) {
        forall p', c' | SameNodes(p, p') && SameNodes(c, c')
          ensures TransitionOf(Some(Nodes(p')), Nodes(c'), safe) == TransitionOf(Some(Nodes(p)), Nodes(c), safe)
        {
          SameRecord(Present(p), Present(p'), Present(c), Present(c'), safe);
        }
      } else {
        ParentOrderShows(p, c, safe);
      }
    }
  }
}
