/** The dependency graph between package bases: paths, cycles, depth; topological order and closure. */
module Graph {
  import opened Protocol

  type Edges = map<string, set<string>>

  /** Dependencies of a node; a node the graph does not know has none. */
  function Deps(g: Edges, node: string): set<string> {
    if node in g then g[node] else {}
  }

  /** What adding packages and dependencies one at a time keeps. */
  ghost predicate WellFormed(g: Edges) {
    forall n <- g :: g[n] <= g.Keys && n !in g[n]
  }

  // ---------------------------------------------------------------- walks

  /** A walk along dependencies: each node is a dependency of the one before. */
  ghost predicate IsWalk(g: Edges, walk: seq<string>) {
    |walk| > 0 && forall i :: 0 <= i < |walk| - 1 ==> walk[i + 1] in Deps(g, walk[i])
  }

  ghost predicate Reaches(g: Edges, from: string, to: string) {
    exists walk :: IsWalk(g, walk) && walk[0] == from && walk[|walk| - 1] == to
  }

  ghost predicate HasRepeat(walk: seq<string>) {
    exists i, j :: 0 <= i < j < |walk| && walk[i] == walk[j]
  }

  /** Some walk from the node meets a node twice. */
  ghost predicate ReachesCycle(g: Edges, node: string) {
    exists walk :: IsWalk(g, walk) && walk[0] == node && HasRepeat(walk)
  }

  /** Some walk from the node takes `k` steps: the node's longest dependency depth is at least `k`. */
  ghost predicate DepthAtLeast(g: Edges, node: string, k: nat) {
    exists walk :: IsWalk(g, walk) && walk[0] == node && |walk| == k + 1
  }

  lemma WalkTail(g: Edges, walk: seq<string>)
    requires IsWalk(g, walk) && |walk| > 1
    ensures IsWalk(g, walk[1..]) && walk[1] in Deps(g, walk[0])
  {
    assert walk[0 + 1] in Deps(g, walk[0]);
    forall i | 0 <= i < |walk[1..]| - 1 ensures walk[1..][i + 1] in Deps(g, walk[1..][i]) {
      assert walk[i + 1 + 1] in Deps(g, walk[i + 1]);
    }
  }

  lemma WalkPrepend(g: Edges, node: string, walk: seq<string>)
    requires IsWalk(g, walk) && walk[0] in Deps(g, node)
    ensures IsWalk(g, [node] + walk)
  {
    var w := [node] + walk;
    forall i | 0 <= i < |w| - 1 ensures w[i + 1] in Deps(g, w[i]) {
      if i > 0 { assert walk[i - 1 + 1] in Deps(g, walk[i - 1]); }
    }
  }

  lemma WalkAppend(g: Edges, a: seq<string>, b: seq<string>)
    requires IsWalk(g, a) && IsWalk(g, b) && b[0] in Deps(g, a[|a| - 1])
    ensures IsWalk(g, a + b)
  {
    var w := a + b;
    forall i | 0 <= i < |w| - 1 ensures w[i + 1] in Deps(g, w[i]) {
      if i < |a| - 1 { assert a[i + 1] in Deps(g, a[i]); }
      if i > |a| - 1 { assert b[i - |a| + 1] in Deps(g, b[i - |a|]); }
    }
  }

  lemma WalkSlice(g: Edges, walk: seq<string>, i: nat, j: nat)
    requires IsWalk(g, walk) && i < j <= |walk|
    ensures IsWalk(g, walk[i..j])
  {
    forall k | 0 <= k < |walk[i..j]| - 1 ensures walk[i..j][k + 1] in Deps(g, walk[i..j][k]) {
      assert walk[i + k + 1] in Deps(g, walk[i + k]);
    }
  }

  /** Depth one more than a dependency's, and no more than that. */
  lemma DepthStep(g: Edges, node: string, k: nat)
    ensures DepthAtLeast(g, node, 0)
    ensures DepthAtLeast(g, node, k + 1) <==> exists d :: d in Deps(g, node) && DepthAtLeast(g, d, k)
  {
    assert IsWalk(g, [node]);
    if DepthAtLeast(g, node, k + 1) {
      var walk :| IsWalk(g, walk) && walk[0] == node && |walk| == k + 2;
      WalkTail(g, walk);
      assert DepthAtLeast(g, walk[1], k);
    }
    if d :| d in Deps(g, node) && DepthAtLeast(g, d, k) {
      var walk :| IsWalk(g, walk) && walk[0] == d && |walk| == k + 1;
      WalkPrepend(g, node, walk);
    }
  }

  lemma WalkStays(g: Edges, walk: seq<string>, i: nat)
    requires WellFormed(g) && IsWalk(g, walk) && walk[0] in g && i < |walk|
    ensures walk[i] in g
  {
    if i > 0 {
      WalkStays(g, walk, i - 1);
      assert walk[i - 1 + 1] in Deps(g, walk[i - 1]);
    }
  }

  /** A list without repeats is no longer than any set that holds its elements. */
  lemma {:induction false} Pigeonhole(s: seq<string>, bound: set<string>)
    requires NoRepeats(s) && forall x <- s :: x in bound
    ensures |s| <= |bound|
  {
    if |s| > 0 {
      var last := s[|s| - 1];
      Pigeonhole(s[..|s| - 1], bound - {last});
    }
  }

  /** Unbounded depth is exactly reaching a cycle. */
  lemma CycleIsUnbounded(g: Edges, node: string)
    requires WellFormed(g) && node in g
    ensures ReachesCycle(g, node) <==> forall k: nat :: DepthAtLeast(g, node, k)
  {
    if forall k: nat :: DepthAtLeast(g, node, k) {
      assert DepthAtLeast(g, node, |g|);
      var walk :| IsWalk(g, walk) && walk[0] == node && |walk| == |g| + 1;
      assert |g.Keys| == |g|;
      forall i | 0 <= i < |walk| ensures walk[i] in g.Keys { WalkStays(g, walk, i); }
      if !HasRepeat(walk) {
        Pigeonhole(walk, g.Keys);
      }
    }
    if ReachesCycle(g, node) {
      var walk :| IsWalk(g, walk) && walk[0] == node && HasRepeat(walk);
      var i, j :| 0 <= i < j < |walk| && walk[i] == walk[j];
      forall k: nat ensures DepthAtLeast(g, node, k) {
        var long := GoRound(g, walk, i, j, k);
        WalkSlice(g, long, 0, k + 1);
        assert long[0..k + 1][0] == node;
      }
    }
  }

  /** Going round the cycle as often as needed. */
  lemma {:induction false} GoRound(g: Edges, walk: seq<string>, i: nat, j: nat, k: nat) returns (long: seq<string>)
    requires IsWalk(g, walk) && i < j < |walk| && walk[i] == walk[j]
    ensures IsWalk(g, long) && |long| > k && long[0] == walk[0] && long[|long| - 1] == walk[i]
    decreases k
  {
    if k == 0 {
      long := walk[0..i + 1];
      WalkSlice(g, walk, 0, i + 1);
    } else {
      var before := GoRound(g, walk, i, j, k - 1);
      var round := walk[i + 1..j + 1];
      WalkSlice(g, walk, i + 1, j + 1);
      assert walk[i + 1] in Deps(g, walk[i]);
      WalkAppend(g, before, round);
      long := before + round;
    }
  }

  // ---------------------------------------------------------------- topological order

  datatype TopologicalResult = Ordered(nodes: seq<string>) | Cycle(members: set<string>)

  /** `k` is the node's longest dependency depth. */
  ghost predicate DepthIs(g: Edges, node: string, k: nat) {
    forall j: nat :: DepthAtLeast(g, node, j) <==> j <= k
  }

  /** Each node once, each after its dependencies, and no node before one of smaller depth. */
  ghost predicate IsTopological(g: Edges, nodes: seq<string>) {
    && NoRepeats(nodes) && (forall n :: n in nodes <==> n in g)
    && (forall i :: 0 <= i < |nodes| ==> Deps(g, nodes[i]) <= Elements(nodes[..i]))
    && (forall i, j, k: nat :: 0 <= i < j < |nodes| && DepthAtLeast(g, nodes[i], k) ==> DepthAtLeast(g, nodes[j], k))
  }

  ghost function Elements(s: seq<string>): set<string> {
    set x | x in s
  }

  /** A node whose dependencies are all no deeper than its dependency `d` is one deeper than `d`. */
  lemma DepthOfDependent(g: Edges, node: string, d: string, depth: map<string, nat>)
    requires d in Deps(g, node) && d in depth
    requires forall x <- Deps(g, node) :: x in depth && DepthIs(g, x, depth[x]) && depth[x] <= depth[d]
    ensures DepthIs(g, node, depth[d] + 1)
  {
    forall j: nat ensures DepthAtLeast(g, node, j) <==> j <= depth[d] + 1 {
      if j > 0 {
        DepthStep(g, node, j - 1);
        assert DepthAtLeast(g, d, j - 1) <==> j - 1 <= depth[d];
      } else {
        DepthStep(g, node, 0);
      }
    }
  }

  lemma DepthOfLeaf(g: Edges, node: string)
    requires Deps(g, node) == {}
    ensures DepthIs(g, node, 0)
  {
    forall j: nat ensures DepthAtLeast(g, node, j) <==> j <= 0 {
      DepthStep(g, node, if j > 0 then j - 1 else 0);
    }
  }

  /** What is known of the depths of the emitted and the waiting nodes. */
  ghost predicate DepthsSorted(g: Edges, nodes: seq<string>, depth: map<string, nat>) {
    && (forall n <- nodes :: n in depth && DepthIs(g, n, depth[n]))
    && (forall i, j :: 0 <= i < j < |nodes| ==> depth[nodes[i]] <= depth[nodes[j]])
  }

  /** Kahn's invariant: `ready` waits with all dependencies emitted, `remaining` misses exactly what is emitted. */
  ghost predicate Emitting(g: Edges, ordered: seq<string>, ready: seq<string>, remaining: Edges) {
    && NoRepeats(ordered + ready)
    && remaining.Keys == g.Keys - Elements(ordered)
    && (forall n <- ordered :: n in g)
    && (forall n <- remaining :: remaining[n] == Deps(g, n) - Elements(ordered))
    && (forall n :: n in ready <==> n in remaining && Deps(g, n) <= Elements(ordered))
    && (forall i :: 0 <= i < |ordered| ==> Deps(g, ordered[i]) <= Elements(ordered[..i]))
  }

  /** Emitted and waiting nodes are sorted by depth, and what waits is at most one deeper than what was emitted last. */
  ghost predicate Layered(g: Edges, ordered: seq<string>, ready: seq<string>, depth: map<string, nat>) {
    && DepthsSorted(g, ordered + ready, depth)
    && (forall n <- ready ::
        |ordered| > 0 ==> ordered[|ordered| - 1] in depth && depth[n] <= depth[ordered[|ordered| - 1]] + 1)
    && (forall n <- ready :: |ordered| == 0 ==> depth[n] == 0)
  }

  ghost predicate Waits(g: Edges, remaining: Edges, node: string) {
    exists d :: d in Deps(g, node) && d in remaining
  }

  ghost predicate Stuck(g: Edges, remaining: Edges) {
    forall n {:trigger Waits(g, remaining, n)} :: n in remaining ==> Waits(g, remaining, n)
  }

  /** A node left over when nothing waits has a left-over dependency, so its depth has no bound. */
  lemma {:induction false} StuckIsUnbounded(g: Edges, remaining: Edges, node: string, k: nat)
    requires node in remaining && Stuck(g, remaining)
    ensures DepthAtLeast(g, node, k)
    decreases k
  {
    hide DepthAtLeast;
    if k == 0 {
      DepthStep(g, node, 0);
    } else {
      assert Waits(g, remaining, node);
      var d :| d in Deps(g, node) && d in remaining;
      StuckIsUnbounded(g, remaining, d, k - 1);
      DepthStep(g, node, k - 1);
    }
  }

  /** When nothing waits any more, the nodes left over are exactly those that reach a cycle. */
  lemma StuckIsCyclic(g: Edges, ordered: seq<string>, remaining: Edges, depth: map<string, nat>)
    requires WellFormed(g) && Emitting(g, ordered, [], remaining) && Layered(g, ordered, [], depth)
    ensures forall n <- g :: n in remaining <==> ReachesCycle(g, n)
  {
    hide ReachesCycle, DepthAtLeast;
    assert ordered + [] == ordered;
    forall n | n in remaining ensures Waits(g, remaining, n) {
      assert n !in [];
      assert !(Deps(g, n) <= Elements(ordered));
    }
    forall n <- g ensures n in remaining <==> ReachesCycle(g, n) {
      CycleIsUnbounded(g, n);
      if n in remaining {
        forall k: nat ensures DepthAtLeast(g, n, k) { StuckIsUnbounded(g, remaining, n, k); }
      } else {
        assert n in Elements(ordered);
        assert !DepthAtLeast(g, n, depth[n] + 1);
      }
    }
  }

  lemma SortedDepths(g: Edges, nodes: seq<string>, depth: map<string, nat>)
    requires DepthsSorted(g, nodes, depth)
    ensures forall i, j, k: nat :: 0 <= i < j < |nodes| && DepthAtLeast(g, nodes[i], k) ==> DepthAtLeast(g, nodes[j], k)
  {
    forall i, j, k: nat | 0 <= i < j < |nodes| && DepthAtLeast(g, nodes[i], k) ensures DepthAtLeast(g, nodes[j], k) {
      assert nodes[i] in nodes && nodes[j] in nodes;
      assert DepthIs(g, nodes[i], depth[nodes[i]]) && DepthIs(g, nodes[j], depth[nodes[j]]);
    }
  }

  /** The dependents that wait for nothing else once `node` is emitted. */
  ghost predicate Released(g: Edges, emitted: set<string>, remaining: Edges, node: string, pushed: seq<string>) {
    && NoRepeats(pushed)
    && forall n :: n in pushed <==> n in remaining && node in Deps(g, n) && Deps(g, n) <= emitted + {node}
  }

  lemma ReleasedAreNew(g: Edges, ordered: seq<string>, ready: seq<string>, remaining: Edges, pushed: seq<string>)
    requires Emitting(g, ordered, ready, remaining) && |ready| > 0
    requires Released(g, Elements(ordered), remaining - {ready[0]}, ready[0], pushed)
    ensures NoRepeats(ordered + ready + pushed)
    ensures ordered + [ready[0]] + (ready[1..] + pushed) == ordered + ready + pushed
    ensures forall n <- pushed ::
        n !in ordered + ready && Deps(g, n) <= Elements(ordered + [ready[0]]) && ready[0] in Deps(g, n)
  {
    assert ordered + [ready[0]] + (ready[1..] + pushed) == ordered + ready + pushed;
    assert ready[0] in ready && ready[0] in remaining;
    assert Elements(ordered + [ready[0]]) == Elements(ordered) + {ready[0]};
    forall n <- pushed ensures n !in ordered && n !in ready {
      assert n in remaining;
      assert ready[0] !in Elements(ordered);
    }
    var before, all := ordered + ready, ordered + ready + pushed;
    forall i, j | 0 <= i < j < |all| ensures all[i] != all[j] {
      if j < |before| {
        assert before[i] == all[i] && before[j] == all[j];
      } else {
        assert all[j] == pushed[j - |before|];
        if i < |before| { assert all[i] == before[i] && before[i] in before; }
      }
    }
  }

  /** Everything up to the first waiting node is no deeper than it; everything that waits is at most one deeper. */
  lemma DepthsAround(g: Edges, ordered: seq<string>, ready: seq<string>, depth: map<string, nat>)
    requires Layered(g, ordered, ready, depth) && |ready| > 0
    ensures ready[0] in depth
    ensures forall x <- ordered + [ready[0]] :: x in depth && DepthIs(g, x, depth[x]) && depth[x] <= depth[ready[0]]
    ensures forall n <- ordered + ready :: n in depth && depth[n] <= depth[ready[0]] + 1
  {
    hide DepthIs;
    var before, k := ordered + ready, |ordered|;
    assert before[k] == ready[0] && ready[0] in before;
    forall x <- ordered + [ready[0]] ensures x in depth && DepthIs(g, x, depth[x]) && depth[x] <= depth[ready[0]] {
      var i :| 0 <= i < |ordered + [ready[0]]| && (ordered + [ready[0]])[i] == x;
      assert before[i] == x && x in before;
    }
    forall n <- before ensures n in depth && depth[n] <= depth[ready[0]] + 1 {
      if n in ready {
        if |ordered| > 0 { assert ordered[|ordered| - 1] in ordered + [ready[0]]; }
      } else {
        assert n in ordered + [ready[0]];
      }
    }
  }

  lemma ReleasedDepths(g: Edges, ordered: seq<string>, ready: seq<string>, depth: map<string, nat>, pushed: seq<string>)
    returns (depth': map<string, nat>)
    requires Layered(g, ordered, ready, depth) && |ready| > 0
    requires forall n <- pushed ::
        n !in ordered + ready && Deps(g, n) <= Elements(ordered + [ready[0]]) && ready[0] in Deps(g, n)
    ensures Layered(g, ordered + [ready[0]], ready[1..] + pushed, depth')
  {
    DepthsAround(g, ordered, ready, depth);
    var node, before := ready[0], ordered + ready;
    depth' := depth + map n | n in pushed :: depth[node] + 1;
    forall n <- pushed ensures DepthIs(g, n, depth[node] + 1) {
      DepthOfDependent(g, n, node, depth);
    }
    hide DepthIs;
    var all := before + pushed;
    assert ordered + [node] + (ready[1..] + pushed) == all;
    forall n <- all ensures n in depth' && DepthIs(g, n, depth'[n]) && depth'[n] <= depth'[node] + 1 {
      if n !in pushed { assert n in before; }
      assert node in before;
    }
    forall i, j | 0 <= i < j < |all| ensures depth'[all[i]] <= depth'[all[j]] {
      if j < |before| {
        assert all[i] == before[i] && all[j] == before[j] && before[i] in before && before[j] in before;
      } else {
        assert all[j] in pushed && all[i] in all;
      }
    }
  }

  /** Emitting the first waiting node and letting its dependents go keeps Kahn's invariant. */
  lemma EmitNext(g: Edges, ordered: seq<string>, ready: seq<string>, remaining: Edges, remaining': Edges,
      pushed: seq<string>)
    requires Emitting(g, ordered, ready, remaining) && |ready| > 0
    requires Released(g, Elements(ordered), remaining - {ready[0]}, ready[0], pushed)
    requires remaining'.Keys == remaining.Keys - {ready[0]}
    requires forall n <- remaining' :: remaining'[n] == Deps(g, n) - (Elements(ordered) + {ready[0]})
    ensures Emitting(g, ordered + [ready[0]], ready[1..] + pushed, remaining')
  {
    var node, ordered', ready' := ready[0], ordered + [ready[0]], ready[1..] + pushed;
    assert node in ready && node in remaining;
    assert Elements(ordered') == Elements(ordered) + {node};
    ReleasedAreNew(g, ordered, ready, remaining, pushed);
    StillWaiting(g, ordered, ready, remaining, pushed);
    hide NoRepeats;
    forall i | 0 <= i < |ordered'| ensures Deps(g, ordered'[i]) <= Elements(ordered'[..i]) {
      if i < |ordered| {
        assert ordered'[..i] == ordered[..i];
      } else {
        assert ordered'[..i] == ordered;
      }
    }
  }

  lemma StillWaiting(g: Edges, ordered: seq<string>, ready: seq<string>, remaining: Edges, pushed: seq<string>)
    requires Emitting(g, ordered, ready, remaining) && |ready| > 0
    requires Released(g, Elements(ordered), remaining - {ready[0]}, ready[0], pushed)
    ensures forall n :: n in ready[1..] + pushed <==>
              n in remaining && n != ready[0] && Deps(g, n) <= Elements(ordered) + {ready[0]}
  {
    var node := ready[0];
    forall n ensures n in ready[1..] <==> n in ready && n != node {
      assert n in ready <==> n == node || n in ready[1..];
      if n in ready[1..] {
        var i :| 0 <= i < |ready[1..]| && ready[1..][i] == n;
        assert (ordered + ready)[|ordered|] == node && (ordered + ready)[|ordered| + i + 1] == n;
      }
    }
  }

  // ---------------------------------------------------------------- closure

  /** Some root reaches the node along dependencies. */
  ghost predicate ReachedFrom(g: Edges, roots: set<string>, node: string) {
    exists r :: r in roots && Reaches(g, r, node)
  }

  lemma ReachedRoot(g: Edges, roots: set<string>, root: string)
    requires root in roots
    ensures ReachedFrom(g, roots, root)
  {
    assert IsWalk(g, [root]);
    assert Reaches(g, root, root);
  }

  lemma ReachedStep(g: Edges, roots: set<string>, node: string, d: string)
    requires ReachedFrom(g, roots, node) && d in Deps(g, node)
    ensures ReachedFrom(g, roots, d)
  {
    var r :| r in roots && Reaches(g, r, node);
    var walk :| IsWalk(g, walk) && walk[0] == r && walk[|walk| - 1] == node;
    assert IsWalk(g, [d]);
    WalkAppend(g, walk, [d]);
    assert (walk + [d])[|walk + [d]| - 1] == d;
    assert Reaches(g, r, d);
  }

  /** The nodes reachable from the roots, as a finite set. */
  ghost function ClosureSet(g: Edges, roots: set<string>): set<string> {
    set n | n in roots + Values(g) && ReachedFrom(g, roots, n)
  }

  function Values(g: Edges): set<string> {
    set n, d | n in g && d in g[n] :: d
  }

  lemma ClosureSetIsExact(g: Edges, roots: set<string>)
    ensures forall n :: n in ClosureSet(g, roots) <==> ReachedFrom(g, roots, n)
  {
    assert IsClosed(g, roots + Values(g));
    ClosedHoldsReached(g, roots, roots + Values(g));
  }

  /** The set is closed under dependencies. */
  ghost predicate IsClosed(g: Edges, s: set<string>) {
    forall n <- s :: Deps(g, n) <= s
  }

  lemma {:induction false} ClosedHoldsWalks(g: Edges, s: set<string>, walk: seq<string>)
    requires IsClosed(g, s) && IsWalk(g, walk) && walk[0] in s
    ensures walk[|walk| - 1] in s
    decreases |walk|
  {
    if |walk| > 1 {
      WalkTail(g, walk);
      ClosedHoldsWalks(g, s, walk[1..]);
    }
  }

  /** Reachability is the least closed set above the roots. */
  lemma ClosedHoldsReached(g: Edges, roots: set<string>, s: set<string>)
    requires IsClosed(g, s) && roots <= s
    ensures forall n :: ReachedFrom(g, roots, n) ==> n in s
  {
    forall n | ReachedFrom(g, roots, n) ensures n in s {
      var r :| r in roots && Reaches(g, r, n);
      var walk :| IsWalk(g, walk) && walk[0] == r && walk[|walk| - 1] == n;
      ClosedHoldsWalks(g, s, walk);
    }
  }

  /** The breadth-first search has met only reachable nodes and still has to visit what it owes. */
  ghost predicate Searching(g: Edges, roots: set<string>, seen: set<string>, queue: set<string>) {
    && roots <= seen + queue
    && (forall n <- seen :: Deps(g, n) <= seen + queue)
    && (forall n <- seen + queue :: ReachedFrom(g, roots, n))
  }

  lemma SearchVisits(g: Edges, roots: set<string>, seen: set<string>, queue: set<string>, node: string,
      rest: set<string>)
    requires Searching(g, roots, seen, queue) && node in queue
    requires queue <= rest + {node} && rest <= queue + Deps(g, node) && Deps(g, node) <= seen + {node} + rest
    ensures Searching(g, roots, seen + {node}, rest)
  {
    hide ReachedFrom;
    forall n <- seen + {node} + rest ensures ReachedFrom(g, roots, n) {
      if n !in seen + queue { ReachedStep(g, roots, node, n); }
    }
  }

  class DependencyGraph {
    var dependencies: Edges

    constructor ()
      ensures dependencies == map[] && WellFormed(dependencies)
    {
      dependencies := map[];
    }

    constructor FromEdges(g: Edges)
      ensures dependencies == g
    {
      dependencies := g;
    }

    method AddPackage(base: string)
      modifies this
      ensures dependencies == old(dependencies)[base := Deps(old(dependencies), base)]
      ensures WellFormed(old(dependencies)) ==> WellFormed(dependencies)
    {
      if base !in dependencies { dependencies := dependencies[base := {}]; }
    }

    /** A package does not depend on itself. */
    method AddDependency(base: string, dependency: string)
      modifies this
      ensures dependencies.Keys == old(dependencies).Keys + {base, dependency}
      ensures forall n, d {:trigger d in Deps(dependencies, n)} :: d in Deps(dependencies, n) <==>
                d in Deps(old(dependencies), n) || (n == base && d == dependency && d != n)
      ensures WellFormed(old(dependencies)) ==> WellFormed(dependencies)
    {
      if base == dependency {
        AddPackage(base);
        return;
      }
      AddPackage(dependency);
      AddPackage(base);
      dependencies := dependencies[base := dependencies[base] + {dependency}];
    }

    method TopologicalOrder() returns (r: TopologicalResult)
      requires WellFormed(dependencies)
      ensures match r
              case Ordered(nodes) =>
                IsTopological(dependencies, nodes) && forall n <- dependencies :: !ReachesCycle(dependencies, n)
              case Cycle(members) =>
                members != {} && forall n :: n in members <==> n in dependencies && ReachesCycle(dependencies, n)
    {
      hide DepthIs, ReachesCycle, IsTopological, DepthAtLeast;
      ghost var g := dependencies;
      var remaining := dependencies;
      var ready, ordered := [], [];
      ghost var depth: map<string, nat> := map[];
      var rest := remaining.Keys;
      while rest != {}
        invariant rest <= g.Keys && NoRepeats(ready) && depth.Keys == Elements(ready)
        invariant forall n :: n in ready <==> n in g && n !in rest && Deps(g, n) == {}
        invariant forall n <- ready :: DepthIs(g, n, 0) && depth[n] == 0
      {
        var n :| n in rest;
        rest := rest - {n};
        if remaining[n] == {} {
          ready := ready + [n];
          DepthOfLeaf(g, n);
          depth := depth[n := 0];
        }
      }
      FirstLayer(g, ready, depth);
      while ready != []
        invariant Emitting(g, ordered, ready, remaining) && Layered(g, ordered, ready, depth)
        decreases remaining.Keys
      {
        hide Emitting, Layered, Released;
        // a node waits once, so the one taken here has not been emitted before
        var node := ready[0];
        FirstWaits(g, ordered, ready, remaining);
        var pushed;
        ghost var before := remaining;
        remaining, pushed := Release(g, Elements(ordered), remaining - {node}, node);
        EmitNext(g, ordered, ready, before, remaining, pushed);
        ReleasedAreNew(g, ordered, ready, before, pushed);
        depth := ReleasedDepths(g, ordered, ready, depth, pushed);
        ready, ordered := ready[1..] + pushed, ordered + [node];
      }
      Finished(g, ordered, remaining, depth);
      if remaining.Keys == {} {
        r := Ordered(ordered);
      } else {
        r := Cycle(remaining.Keys);
      }
    }

    /** All nodes reachable from the roots, the roots included. */
    method Closure(roots: seq<string>) returns (seen: set<string>)
      ensures forall n :: n in seen <==> ReachedFrom(dependencies, Elements(roots), n)
    {
      hide ReachedFrom;
      ghost var g, start := dependencies, Elements(roots);
      ghost var universe := start + set n, d | n in g && d in g[n] :: d;
      seen := {};
      var queue := roots;
      forall n <- start ensures ReachedFrom(g, start, n) { ReachedRoot(g, start, n); }
      while queue != []
        invariant Searching(g, start, seen, Elements(queue)) && Elements(queue) <= universe
        decreases universe - seen, |queue|
      {
        var node := queue[0];
        ghost var before, owed := seen, Elements(queue);
        queue := queue[1..];
        assert owed == Elements(queue) + {node};
        if node in seen {
          SearchAgain(g, start, seen, owed, node, Elements(queue));
          continue;
        }
        seen := seen + {node};
        var rest := if node in dependencies then dependencies[node] else {};
        while rest != {}
          invariant rest <= Deps(g, node)
          invariant owed <= Elements(queue) + {node} && Elements(queue) <= owed + Deps(g, node)
          invariant Deps(g, node) - rest <= seen + Elements(queue)
        {
          var d :| d in rest;
          ghost var left, was := rest, Elements(queue);
          rest := rest - {d};
          assert Deps(g, node) - rest == (Deps(g, node) - left) + {d};
          if d !in seen { queue := queue + [d]; assert Elements(queue) == was + {d}; }
        }
        SearchVisits(g, start, before, owed, node, Elements(queue));
      }
      ClosedHoldsReached(g, start, seen);
    }

    /** Take `node` off what every remaining node waits for; list those that wait for nothing else. */
    method Release(ghost g: Edges, ghost emitted: set<string>, remaining: Edges, node: string)
      returns (left: Edges, pushed: seq<string>)
      requires node !in emitted && forall n <- remaining :: remaining[n] == Deps(g, n) - emitted
      ensures left.Keys == remaining.Keys && forall n <- left :: left[n] == Deps(g, n) - (emitted + {node})
      ensures Released(g, emitted, remaining, node, pushed)
    {
      left, pushed := remaining, [];
      var rest := remaining.Keys;
      while rest != {}
        invariant rest <= remaining.Keys == left.Keys && NoRepeats(pushed)
        invariant forall n <- left :: left[n] == if n in rest then Deps(g, n) - emitted
            else Deps(g, n) - (emitted + {node})
        invariant forall n ::
            n in pushed <==> n in remaining && n !in rest && node in Deps(g, n) && Deps(g, n) <= emitted + {node}
      {
        var n :| n in rest;
        rest := rest - {n};
        if node in left[n] {
          left := left[n := left[n] - {node}];
          if left[n] == {} { pushed := pushed + [n]; }
        }
      }
    }
  }

  lemma SearchAgain(g: Edges, roots: set<string>, seen: set<string>, queue: set<string>, node: string,
      rest: set<string>)
    requires Searching(g, roots, seen, queue) && queue == rest + {node} && node in seen
    ensures Searching(g, roots, seen, rest)
  {
    hide ReachedFrom;
  }

  lemma FirstLayer(g: Edges, ready: seq<string>, depth: map<string, nat>)
    requires NoRepeats(ready) && forall n :: n in ready <==> n in g && Deps(g, n) == {}
    requires forall n <- ready :: n in depth && DepthIs(g, n, 0) && depth[n] == 0
    ensures Emitting(g, [], ready, g) && Layered(g, [], ready, depth)
  {
    hide DepthIs;
    assert [] + ready == ready;
  }

  lemma FirstWaits(g: Edges, ordered: seq<string>, ready: seq<string>, remaining: Edges)
    requires Emitting(g, ordered, ready, remaining) && |ready| > 0
    ensures ready[0] in remaining && ready[0] !in Elements(ordered)
    ensures forall n <- remaining :: remaining[n] == Deps(g, n) - Elements(ordered)
  {
    assert ready[0] in ready;
  }

  lemma Finished(g: Edges, ordered: seq<string>, remaining: Edges, depth: map<string, nat>)
    requires WellFormed(g) && Emitting(g, ordered, [], remaining) && Layered(g, ordered, [], depth)
    ensures forall n <- g :: n in remaining <==> ReachesCycle(g, n)
    ensures remaining.Keys <= g.Keys
    ensures remaining.Keys == {} ==> IsTopological(g, ordered)
  {
    hide ReachesCycle, DepthIs, DepthAtLeast;
    StuckIsCyclic(g, ordered, remaining, depth);
    assert ordered + [] == ordered;
    SortedDepths(g, ordered, depth);
    if remaining.Keys == {} {
      forall n ensures n in ordered <==> n in g { assert n in g ==> n in Elements(ordered); }
    }
  }
}
