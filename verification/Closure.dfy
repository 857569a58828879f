/** The closure of the subscriptions: which package bases the repository tracks, and why. */
module Closure {
  import opened Protocol
  import opened Graph
  import opened Store

  const MAXIMUM_CLOSURE: nat := 256

  type Choices = map<(string, string), string>

  datatype Closure = Closure(
    direct: set<string>, members: set<string>, graph: Edges,
    unresolved: map<string, seq<string>>, requiredBy: map<string, set<string>>)

  // ---------------------------------------------------------------- what the closure is about

  /** Dependencies are read off the newest approved revision, or without one off the newest under review. */
  function DependencyRevision(revisions: seq<Revision>, base: string): Option<seq<Dependency>> {
    var approved := LatestApproved(revisions, base);
    if approved.Some? then Some(revisions[approved.value].dependencies) else
    var open := LatestOpen(revisions, base);
    if open.Some? then Some(revisions[open.value].dependencies) else None
  }

  /** The package base a dependency leads to: resolved in the AUR, or chosen among providers. */
  function Target(choices: Choices, base: string, d: Dependency): Option<string> {
    var target := match d.state
      case Aur => d.target
      case NeedsSelection => if (base, d.name) in choices then Some(choices[(base, d.name)]) else None
      case _ => None;
    if target == Some(base) then None else target
  }

  predicate Undecided(choices: Choices, base: string, d: Dependency) {
    d.state == NeedsSelection && (base, d.name) !in choices
  }

  function Targets(choices: Choices, base: string, dependencies: seq<Dependency>): set<string> {
    if |dependencies| == 0 then {} else
    var target := Target(choices, base, dependencies[|dependencies| - 1]);
    Targets(choices, base, dependencies[..|dependencies| - 1]) + if target.Some? then {target.value} else {}
  }

  function UndecidedNames(choices: Choices, base: string, dependencies: seq<Dependency>): seq<string> {
    if |dependencies| == 0 then [] else
    var d := dependencies[|dependencies| - 1];
    UndecidedNames(choices, base, dependencies[..|dependencies| - 1]) + if Undecided(choices, base, d) then [d.name]
        else []
  }

  /** All resolved and chosen edges between package bases, reachable or not. */
  function AllEdges(revisions: seq<Revision>, choices: Choices): Edges {
    map r | r in revisions :: r.base := TargetsOf(revisions, choices, r.base)
  }

  function TargetsOf(revisions: seq<Revision>, choices: Choices, base: string): set<string> {
    var dependencies := DependencyRevision(revisions, base);
    if dependencies.Some? then Targets(choices, base, dependencies.value) else {}
  }

  function UndecidedOf(revisions: seq<Revision>, choices: Choices, base: string): seq<string> {
    var dependencies := DependencyRevision(revisions, base);
    if dependencies.Some? then UndecidedNames(choices, base, dependencies.value) else []
  }

  lemma DepsOfAll(revisions: seq<Revision>, choices: Choices, base: string)
    ensures Deps(AllEdges(revisions, choices), base) == TargetsOf(revisions, choices, base)
  {
    if base !in AllEdges(revisions, choices) {
      assert forall r <- revisions :: r.base != base;
    }
  }

  /** The nodes the subscriptions need. */
  ghost predicate Needed(revisions: seq<Revision>, choices: Choices, direct: set<string>, base: string) {
    ReachedFrom(AllEdges(revisions, choices), direct, base)
  }

  /** The closure is exact: its members are what the subscriptions reach, its graph has all their edges and no
      others, `requiredBy` is the inverse of the graph, and `unresolved` lists each member's open choices. */
  ghost predicate Exact(c: Closure, revisions: seq<Revision>, choices: Choices) {
    && (forall n :: n in c.members <==> Needed(revisions, choices, c.direct, n))
    && WellFormed(c.graph) && c.graph.Keys == c.members
    && (forall n <- c.members :: c.graph[n] == TargetsOf(revisions, choices, n))
    && Inverse(c.requiredBy, c.graph)
    && Unresolved(c.unresolved, c.members, revisions, choices)
  }

  ghost predicate Inverse(requiredBy: map<string, set<string>>, g: Edges) {
    forall d, n {:trigger n in Deps(requiredBy, d)} {:trigger d in Deps(g, n)} ::
        n in Deps(requiredBy, d) <==> d in Deps(g, n)
  }

  ghost predicate Unresolved(unresolved: map<string, seq<string>>, members: set<string>, revisions: seq<Revision>,
      choices: Choices) {
    && (forall n <- unresolved :: n in members && unresolved[n] != [])
    && (forall n <- members :: (if n in unresolved then unresolved[n] else []) == UndecidedOf(revisions, choices, n))
  }

  // ---------------------------------------------------------------- the crawl

  /** The graph has the edges of the members, and `requiredBy` the same edges reversed. */
  ghost predicate GraphKnown(members: set<string>, queue: set<string>, g: Edges, requiredBy: Edges,
      revisions: seq<Revision>, choices: Choices) {
    && WellFormed(g) && members <= g.Keys <= members + queue
    && (forall n, d {:trigger d in Deps(g, n)} ::
        d in Deps(g, n) <==> n in members && d in TargetsOf(revisions, choices, n))
    && Inverse(requiredBy, g)
  }

  /** What the crawl knows between two packages. */
  ghost predicate Crawling(c: Closure, queue: set<string>, revisions: seq<Revision>, choices: Choices) {
    && Searching(AllEdges(revisions, choices), c.direct, c.members, queue)
    && GraphKnown(c.members, queue, c.graph, c.requiredBy, revisions, choices)
    && Unresolved(c.unresolved, c.members, revisions, choices)
  }

  lemma CrawlIsExact(c: Closure, revisions: seq<Revision>, choices: Choices)
    requires Crawling(c, {}, revisions, choices)
    ensures Exact(c, revisions, choices)
  {
    hide Unresolved, Inverse, ReachedFrom, AllEdges, TargetsOf;
    var g := AllEdges(revisions, choices);
    assert c.members + {} == c.members;
    ClosedHoldsReached(g, c.direct, c.members);
    forall n <- c.members ensures c.graph[n] == TargetsOf(revisions, choices, n) {
      assert forall d :: d in Deps(c.graph, n) <==> d in TargetsOf(revisions, choices, n);
    }
  }

  /** `g` and `r` are `g0` and `r0` with the edges from `base` to the targets added. */
  ghost predicate EdgesAdded(g0: Edges, g: Edges, r0: Edges, r: Edges, base: string, targets: set<string>) {
    && WellFormed(g) && base !in targets
    && g0.Keys <= g.Keys <= g0.Keys + {base} + targets
    && (forall n, d {:trigger d in Deps(g, n)} :: d in Deps(g, n) <==> d in Deps(g0, n) || (n == base && d in targets))
    && (forall d, n {:trigger n in Deps(r, d)} :: n in Deps(r, d) <==> n in Deps(r0, d) || (n == base && d in targets))
  }

  lemma EdgeAdded(g0: Edges, g: Edges, r0: Edges, r: Edges, base: string, targets: set<string>, target: string,
      g': Edges, r': Edges)
    requires EdgesAdded(g0, g, r0, r, base, targets) && target != base
    requires WellFormed(g') && g'.Keys == g.Keys + {base, target}
    requires forall n, d {:trigger d in Deps(g', n)} ::
        d in Deps(g', n) <==> d in Deps(g, n) || (n == base && d == target && d != n)
    requires r' == r[target := Deps(r, target) + {base}]
    ensures EdgesAdded(g0, g', r0, r', base, targets + {target})
  {
    hide WellFormed;
    forall n, d ensures d in Deps(g', n) <==> d in Deps(g0, n) || (n == base && d in targets + {target}) {
      assert d in Deps(g, n) <==> d in Deps(g0, n) || (n == base && d in targets);
    }
    forall d, n ensures n in Deps(r', d) <==> n in Deps(r0, d) || (n == base && d in targets + {target}) {
      assert n in Deps(r, d) <==> n in Deps(r0, d) || (n == base && d in targets);
    }
  }

  /** The queue has grown by some of the targets, and owes all of them that are not members. */
  ghost predicate Queued(q0: set<string>, q: set<string>, members: set<string>, targets: set<string>) {
    q0 <= q <= q0 + targets && targets <= members + q
  }

  lemma GraphVisits(members: set<string>, queue: set<string>, g: Edges, r: Edges, base: string, rest: set<string>,
      g': Edges, r': Edges,
                    revisions: seq<Revision>, choices: Choices)
    requires GraphKnown(members, queue + {base}, g, r, revisions, choices) && base !in members
    requires EdgesAdded(g[base := Deps(g, base)], g', r, r', base, TargetsOf(revisions, choices, base))
    requires Queued(queue, rest, members + {base}, TargetsOf(revisions, choices, base))
    ensures GraphKnown(members + {base}, rest, g', r', revisions, choices)
  {
    hide TargetsOf;
    var g0 := g[base := Deps(g, base)];
    forall n, d ensures d in Deps(g', n) <==> n in members + {base} && d in TargetsOf(revisions, choices, n) {
      assert d in Deps(g0, n) <==> d in Deps(g, n);
      assert d in Deps(g, n) <==> n in members && d in TargetsOf(revisions, choices, n);
    }
    forall d, n ensures n in Deps(r', d) <==> d in Deps(g', n) {
      assert d in Deps(g0, n) <==> d in Deps(g, n);
      assert n in Deps(r, d) <==> d in Deps(g, n);
      assert d in Deps(g', n) <==> d in Deps(g0, n) || (n == base && d in TargetsOf(revisions, choices, base));
    }
  }

  /** Visiting a package that was not a member yet. */
  lemma CrawlVisits(c: Closure, queue: set<string>, base: string, rest: set<string>, c': Closure,
                    revisions: seq<Revision>, choices: Choices)
    requires Crawling(c, queue + {base}, revisions, choices) && base !in c.members
    requires EdgesAdded(c.graph[base := Deps(c.graph, base)], c'.graph, c.requiredBy, c'.requiredBy, base,
        TargetsOf(revisions, choices, base))
    requires Queued(queue, rest, c'.members, TargetsOf(revisions, choices, base))
        && base !in TargetsOf(revisions, choices, base)
    requires c'.direct == c.direct && c'.members == c.members + {base}
    requires Unresolved(c'.unresolved, c'.members, revisions, choices)
    ensures Crawling(c', rest, revisions, choices)
  {
    hide Unresolved, AllEdges, TargetsOf, GraphKnown, EdgesAdded, Searching;
    GraphVisits(c.members, queue, c.graph, c.requiredBy, base, rest, c'.graph, c'.requiredBy, revisions, choices);
    DepsOfAll(revisions, choices, base);
    SearchVisits(AllEdges(revisions, choices), c.direct, c.members, queue + {base}, base, rest);
  }

  class Catalog {
    var revisions: seq<Revision>
    var subscriptions: set<string>
    var choices: Choices

    constructor (revisions: seq<Revision>, subscriptions: set<string>, choices: Choices)
      ensures this.revisions == revisions && this.subscriptions == subscriptions && this.choices == choices
    {
      this.revisions, this.subscriptions, this.choices := revisions, subscriptions, choices;
    }

    /** Crawl from the subscriptions along resolved and chosen dependencies, up to the size limit. */
    method ComputeClosure() returns (c: Closure)
      ensures c.direct == subscriptions && |c.members| <= 257
      ensures |c.members| <= 256 ==> Exact(c, revisions, choices)
      ensures forall n <- c.members :: Needed(revisions, choices, subscriptions, n)
    {
      hide Searching, GraphKnown, Unresolved, AllEdges, TargetsOf, UndecidedOf, EdgesAdded, ReachedFrom, Exact;
      var graph := new DependencyGraph();
      var queue := ListSet(subscriptions);
      c := Closure(subscriptions, {}, map[], map[], map[]);
      ghost var universe := Universe(revisions, choices, subscriptions);
      StartCrawling(c, Elements(queue), revisions, choices);
      while queue != []
        invariant fresh(graph) && graph.dependencies == c.graph && c.direct == subscriptions
        invariant Crawling(c, Elements(queue), revisions, choices) && Elements(queue) <= universe
        invariant |c.members| <= MAXIMUM_CLOSURE
        decreases universe - c.members, |queue|
      {
        var base := queue[0];
        ghost var owed, before := Elements(queue), c;
        queue := queue[1..];
        assert owed == Elements(queue) + {base};
        if base in c.members {
          CrawlAgain(c, Elements(queue), base, revisions, choices);
          continue;
        }
        CrawlFacts(before, owed, revisions, choices);
        c := c.(members := c.members + {base});
        graph.AddPackage(base);
        c := c.(graph := graph.dependencies);
        if |c.members| > MAXIMUM_CLOSURE { break; }
        var dependencies := DependencyRevision(revisions, base);
        var queue', requiredBy, unresolved := queue, c.requiredBy, c.unresolved;
        if dependencies.Some? {
          queue', requiredBy, unresolved := Follow(base, dependencies.value, graph, c.members, queue, c.requiredBy,
              c.unresolved);
        } else {
          NoEdgesAdded(graph.dependencies, requiredBy, base);
        }
        VisitFacts(before, c.members, base, dependencies, unresolved, revisions, choices);
        TargetsInUniverse(revisions, choices, subscriptions, base);
        ghost var targets := TargetsOf(revisions, choices, base);
        assert EdgesAdded(before.graph[base := Deps(before.graph, base)], graph.dependencies, before.requiredBy,
            requiredBy, base, targets);
        assert Queued(Elements(queue), Elements(queue'), c.members, targets);
        NoSelfTarget(revisions, choices, base);
        c := c.(graph := graph.dependencies, requiredBy := requiredBy, unresolved := unresolved);
        CrawlVisits(before, Elements(queue), base, Elements(queue'), c, revisions, choices);
        queue := queue';
      }
      if |c.members| <= MAXIMUM_CLOSURE {
        assert Elements(queue) == {};
        CrawlFacts(c, {}, revisions, choices);
        CrawlIsExact(c, revisions, choices);
      }
    }

    /** Drop a direct subscription; report the packages that nothing needs any more. */
    method Unsubscribe(base: string) returns (found: bool, removed: set<string>, ghost before: Closure)
      modifies `subscriptions
      ensures found == (base in old(subscriptions)) && subscriptions == old(subscriptions) - {base}
      ensures !found ==> removed == {}
      ensures found && |before.members| <= 256 ==>
                forall n :: n in removed <==> NeededOnlyBy(revisions, choices, subscriptions, base, n)
      ensures |before.members| <= 256 ==>
          Exact(before, revisions, choices) && before.direct == old(subscriptions)
    {
      hide Exact, ReachedFrom, AllEdges;
      var start := ComputeClosure();
      before := start;
      found, removed := base in subscriptions, {};
      ghost var all := subscriptions;
      subscriptions := subscriptions - {base};
      if !found { return; }
      var after := ComputeClosure();
      removed := start.members - after.members;
      if |start.members| <= MAXIMUM_CLOSURE {
        assert all == subscriptions + {base};
        RemovedExactly(start, after, base, revisions, choices);
      }
    }

    /** Record where one package's dependencies lead. */
    method Follow(base: string, dependencies: seq<Dependency>, graph: DependencyGraph, members: set<string>,
                  queue: seq<string>, requiredBy: map<string, set<string>>, unresolved: map<string, seq<string>>)
      returns (queue': seq<string>, requiredBy': map<string, set<string>>, unresolved': map<string, seq<string>>)
      requires base !in unresolved && WellFormed(graph.dependencies)
      modifies graph
      ensures EdgesAdded(old(graph.dependencies), graph.dependencies, requiredBy, requiredBy', base,
          Targets(choices, base, dependencies))
      ensures Queued(Elements(queue), Elements(queue'), members, Targets(choices, base, dependencies))
      ensures unresolved'.Keys <= unresolved.Keys + {base}
      ensures forall n <- unresolved :: n in unresolved' && unresolved'[n] == unresolved[n]
      ensures if base in unresolved'
          then unresolved'[base] != [] && unresolved'[base] == UndecidedNames(choices, base, dependencies)
              else UndecidedNames(choices, base, dependencies) == []
    {
      hide EdgesAdded, WellFormed, Targets, UndecidedNames, Target, Undecided;
      queue', requiredBy', unresolved' := queue, requiredBy, unresolved;
      NoEdgesAdded(graph.dependencies, requiredBy, base);
      NothingFollowed(choices, base);
      for i := 0 to |dependencies|
        invariant EdgesAdded(old(graph.dependencies), graph.dependencies, requiredBy, requiredBy', base,
            Targets(choices, base, dependencies[..i]))
        invariant Queued(Elements(queue), Elements(queue'), members, Targets(choices, base, dependencies[..i]))
        invariant unresolved'.Keys <= unresolved.Keys + {base}
        invariant forall n <- unresolved :: n in unresolved' && unresolved'[n] == unresolved[n]
        invariant if base in unresolved'
            then unresolved'[base] != [] && unresolved'[base] == UndecidedNames(choices, base, dependencies[..i])
                  else UndecidedNames(choices, base, dependencies[..i]) == []
      {
        var d := dependencies[i];
        FollowedNext(choices, base, dependencies, i);
        if Undecided(choices, base, d) {
          unresolved' := unresolved'[base := (if base in unresolved' then unresolved'[base] else []) + [d.name]];
        }
        var target := Target(choices, base, d);
        if target.Some? {
          ghost var g, r, done := graph.dependencies, requiredBy', Targets(choices, base, dependencies[..i]);
          AddedIsWellFormed(old(graph.dependencies), g, requiredBy, r, base, done);
          graph.AddDependency(base, target.value);
          requiredBy' := requiredBy'[target.value := Deps(requiredBy', target.value) + {base}];
          EdgeAdded(old(graph.dependencies), g, requiredBy, r, base, done, target.value, graph.dependencies,
              requiredBy');
          if target.value !in members {
            ghost var was := Elements(queue');
            queue' := queue' + [target.value];
            assert Elements(queue') == was + {target.value};
          }
        }
      }
      assert dependencies[..|dependencies|] == dependencies;
    }
  }

  lemma NothingFollowed(choices: Choices, base: string)
    ensures Targets(choices, base, []) == {} && UndecidedNames(choices, base, []) == []
  {
  }

  lemma FollowedNext(choices: Choices, base: string, dependencies: seq<Dependency>, i: nat)
    requires i < |dependencies|
    ensures var target := Target(choices, base, dependencies[i]);
            && target != Some(base)
            && Targets(choices, base, dependencies[..i + 1]) ==
                 if target.Some? then Targets(choices, base, dependencies[..i]) + {target.value}
                     else Targets(choices, base, dependencies[..i])
    ensures UndecidedNames(choices, base, dependencies[..i + 1]) ==
              if Undecided(choices, base, dependencies[i])
                  then UndecidedNames(choices, base, dependencies[..i]) + [dependencies[i].name]
              else UndecidedNames(choices, base, dependencies[..i])
  {
    assert dependencies[..i + 1][..i] == dependencies[..i];
  }

  lemma NoEdgesAdded(g: Edges, r: Edges, base: string)
    requires WellFormed(g)
    ensures EdgesAdded(g, g, r, r, base, {})
  {
  }

  lemma AddedIsWellFormed(g0: Edges, g: Edges, r0: Edges, r: Edges, base: string, targets: set<string>)
    requires EdgesAdded(g0, g, r0, r, base, targets)
    ensures WellFormed(g)
  {
  }

  method ListSet(names: set<string>) returns (list: seq<string>)
    ensures Elements(list) == names
  {
    list := [];
    var rest := names;
    while rest != {}
      invariant rest <= names && Elements(list) == names - rest
    {
      var x :| x in rest;
      ghost var was := Elements(list);
      list, rest := list + [x], rest - {x};
      assert Elements(list) == was + {x};
    }
  }

  /** Every package the crawl can meet. */
  ghost function Universe(revisions: seq<Revision>, choices: Choices, direct: set<string>): set<string> {
    direct + set r, d | r in revisions && d in TargetsOf(revisions, choices, r.base) :: d
  }

  /** The package is reachable from `base`, and from no other subscription. */
  ghost predicate NeededOnlyBy(revisions: seq<Revision>, choices: Choices, others: set<string>, base: string,
      n: string) {
    Needed(revisions, choices, {base}, n) && !Needed(revisions, choices, others, n)
  }

  lemma ReachedSplit(g: Edges, roots: set<string>, base: string, n: string)
    ensures ReachedFrom(g, roots + {base}, n) <==> ReachedFrom(g, roots, n) || ReachedFrom(g, {base}, n)
  {
  }

  /** What unsubscribing removes from the closure is exactly what only that subscription needed. */
  lemma RemovedExactly(before: Closure, after: Closure, base: string, revisions: seq<Revision>, choices: Choices)
    requires Exact(before, revisions, choices) && before.direct == after.direct + {base}
    requires |before.members| <= 256
    requires |after.members| <= 256 ==> Exact(after, revisions, choices)
    requires forall n <- after.members :: Needed(revisions, choices, after.direct, n)
    ensures forall n :: n in before.members - after.members <==> NeededOnlyBy(revisions, choices, after.direct, base, n)
  {
    hide ReachedFrom, AllEdges, TargetsOf, Inverse, Unresolved;
    var g := AllEdges(revisions, choices);
    forall n ensures Needed(revisions, choices, before.direct, n)
                <==> Needed(revisions, choices, after.direct, n) || Needed(revisions, choices, {base}, n) {
      ReachedSplit(g, after.direct, base, n);
    }
    assert after.members <= before.members;
    SubsetIsSmaller(after.members, before.members);
  }

  lemma {:induction false} SubsetIsSmaller(a: set<string>, b: set<string>)
    requires a <= b
    ensures |a| <= |b|
  {
    if a != {} {
      var x :| x in a;
      SubsetIsSmaller(a - {x}, b - {x});
    }
  }

  /** Everything a member depends on, directly or not, is a member. */
  lemma MembersAreClosed(c: Closure, revisions: seq<Revision>, choices: Choices, member: string)
    requires Exact(c, revisions, choices) && member in c.members
    ensures forall n :: ReachedFrom(c.graph, {member}, n) ==> n in c.members
  {
    ClosedHoldsReached(c.graph, {member}, c.members);
  }

  lemma {:induction false} NoSelfTargetIn(choices: Choices, base: string, dependencies: seq<Dependency>)
    ensures base !in Targets(choices, base, dependencies)
  {
    if |dependencies| > 0 { NoSelfTargetIn(choices, base, dependencies[..|dependencies| - 1]); }
  }

  lemma NoSelfTarget(revisions: seq<Revision>, choices: Choices, base: string)
    ensures base !in TargetsOf(revisions, choices, base)
  {
    var dependencies := DependencyRevision(revisions, base);
    if dependencies.Some? { NoSelfTargetIn(choices, base, dependencies.value); }
  }

  lemma TargetsInUniverse(revisions: seq<Revision>, choices: Choices, direct: set<string>, base: string)
    ensures TargetsOf(revisions, choices, base) <= Universe(revisions, choices, direct)
  {
    if TargetsOf(revisions, choices, base) != {} {
      var approved := LatestApproved(revisions, base);
      var open := LatestOpen(revisions, base);
      var i := if approved.Some? then approved.value else open.value;
      assert revisions[i] in revisions && revisions[i].base == base;
    }
  }

  lemma StartCrawling(c: Closure, queue: set<string>, revisions: seq<Revision>, choices: Choices)
    requires c == Closure(queue, {}, map[], map[], map[])
    ensures Crawling(c, queue, revisions, choices)
  {
    var g := AllEdges(revisions, choices);
    forall n <- queue ensures ReachedFrom(g, queue, n) { ReachedRoot(g, queue, n); }
  }

  lemma CrawlAgain(c: Closure, queue: set<string>, base: string, revisions: seq<Revision>, choices: Choices)
    requires Crawling(c, queue + {base}, revisions, choices) && base in c.members
    ensures Crawling(c, queue, revisions, choices)
  {
    hide TargetsOf, AllEdges, Inverse, Unresolved;
    SearchAgain(AllEdges(revisions, choices), c.direct, c.members, queue + {base}, base, queue);
    hide Searching;
  }

  lemma CrawlFacts(c: Closure, queue: set<string>, revisions: seq<Revision>, choices: Choices)
    requires Crawling(c, queue, revisions, choices)
    ensures WellFormed(c.graph) && c.unresolved.Keys <= c.members
    ensures forall n <- c.members + queue :: Needed(revisions, choices, c.direct, n)
  {
    hide TargetsOf, AllEdges, Inverse;
  }

  /** The package's own entries, and those of the members before it. */
  lemma VisitFacts(c: Closure, members: set<string>, base: string, dependencies: Option<seq<Dependency>>,
      unresolved: map<string, seq<string>>,
                   revisions: seq<Revision>, choices: Choices)
    requires Unresolved(c.unresolved, c.members, revisions, choices) && base !in c.members
        && members == c.members + {base}
    requires dependencies == DependencyRevision(revisions, base)
    requires unresolved.Keys <= c.unresolved.Keys + {base}
    requires forall n <- c.unresolved :: n in unresolved && unresolved[n] == c.unresolved[n]
    requires var names := if dependencies.Some? then UndecidedNames(choices, base, dependencies.value) else [];
             if base in unresolved then unresolved[base] != [] && unresolved[base] == names else names == []
    ensures TargetsOf(revisions, choices, base) == if dependencies.Some?
        then Targets(choices, base, dependencies.value) else {}
    ensures Unresolved(unresolved, members, revisions, choices)
  {
    hide DependencyRevision, Targets, UndecidedNames;
    assert (if base in unresolved then unresolved[base] else []) == UndecidedOf(revisions, choices, base);
    forall n <- members ensures (if n in unresolved then unresolved[n] else []) == UndecidedOf(revisions, choices, n) {
      if n != base {
        hide UndecidedOf;
        assert n in c.members;
        assert n in unresolved <==> n in c.unresolved;
      }
    }
  }

  // ---------------------------------------------------------------- the closure, edge by edge

  /** Row `i` is where the dependencies of the package are read: its newest approved revision, or without one its newest
      under review. */
  ghost predicate ReadFrom(revisions: seq<Revision>, base: string, i: nat) {
    && i < |revisions| && revisions[i].base == base
    && (if revisions[i].state == Approved then
          forall j :: i < j < |revisions| && revisions[j].base == base ==> revisions[j].state != Approved
        else
          && revisions[i].state in {PendingReview, ManualReview}
          && (forall j :: 0 <= j < |revisions| && revisions[j].base == base ==> revisions[j].state != Approved)
          && (forall j :: i < j < |revisions| && revisions[j].base == base ==>
                revisions[j].state !in {PendingReview, ManualReview}))
  }

  lemma DependenciesRead(revisions: seq<Revision>, base: string)
    ensures forall i: nat :: ReadFrom(revisions, base, i) ==>
              DependencyRevision(revisions, base) == Some(revisions[i].dependencies)
    ensures (forall i: nat :: !ReadFrom(revisions, base, i)) ==> DependencyRevision(revisions, base).None?
  {
    hide LatestApproved, LatestOpen;
    var approved, open := LatestApproved(revisions, base), LatestOpen(revisions, base);
    if approved.Some? {
      assert ReadFrom(revisions, base, approved.value);
    } else if open.Some? {
      assert ReadFrom(revisions, base, open.value);
    }
    forall i: nat | ReadFrom(revisions, base, i)
      ensures DependencyRevision(revisions, base) == Some(revisions[i].dependencies)
    {
      if approved.Some? {
        assert revisions[i].state == Approved;
        assert i == approved.value;
      } else {
        assert Open(revisions[i].state);
        assert open.Some? && i == open.value;
      }
    }
  }

  /** The dependency leads to the package base `t`: it is resolved there in the AUR, or `t` was chosen for it. */
  ghost predicate LeadsTo(choices: Choices, base: string, d: Dependency, t: string) {
    || (d.state == Aur && d.target == Some(t))
    || (d.state == NeedsSelection && (base, d.name) in choices && choices[(base, d.name)] == t)
  }

  lemma {:induction false} TargetsLead(choices: Choices, base: string, dependencies: seq<Dependency>, t: string)
    ensures t in Targets(choices, base, dependencies) <==>
              t != base && exists d <- dependencies :: LeadsTo(choices, base, d, t)
  {
    if |dependencies| > 0 {
      var before, last := dependencies[..|dependencies| - 1], dependencies[|dependencies| - 1];
      TargetsLead(choices, base, before, t);
      assert Target(choices, base, last) == Some(t) <==> t != base && LeadsTo(choices, base, last, t);
      assert last in dependencies && forall d <- dependencies :: d == last || d in before;
    }
  }

  /** Somebody has to choose a provider for the name. */
  ghost predicate OpenChoice(choices: Choices, base: string, dependencies: seq<Dependency>, name: string) {
    exists d <- dependencies :: d.state == NeedsSelection && d.name == name && (base, name) !in choices
  }

  lemma {:induction false} UndecidedAreOpen(choices: Choices, base: string, dependencies: seq<Dependency>, name: string)
    ensures name in UndecidedNames(choices, base, dependencies) <==> OpenChoice(choices, base, dependencies, name)
  {
    if |dependencies| > 0 {
      var before := dependencies[..|dependencies| - 1];
      UndecidedAreOpen(choices, base, before, name);
      assert dependencies == before + [dependencies[|dependencies| - 1]];
    }
  }

  /** Main result on edges: what a member's dependency leads to, other than itself, is its dependency in the graph and a
      member; every edge comes from such a dependency; and the open choices listed for it are exactly its own. */
  lemma ClosureEdges(c: Closure, revisions: seq<Revision>, choices: Choices, n: string, i: nat)
    requires Exact(c, revisions, choices) && n in c.members && ReadFrom(revisions, n, i)
    ensures forall d <- revisions[i].dependencies, t | t != n && LeadsTo(choices, n, d, t) ::
              t in c.graph[n] && t in c.members
    ensures forall t <- c.graph[n] :: t != n && exists d <- revisions[i].dependencies :: LeadsTo(choices, n, d, t)
    ensures forall name :: (n in c.unresolved && name in c.unresolved[n]) <==>
              OpenChoice(choices, n, revisions[i].dependencies, name)
    ensures n in c.unresolved <==> exists name :: OpenChoice(choices, n, revisions[i].dependencies, name)
  {
    var dependencies := revisions[i].dependencies;
    hide ReadFrom, LeadsTo, Targets, UndecidedNames, OpenChoice, ReachedFrom, AllEdges;
    DependenciesRead(revisions, n);
    forall t ensures t in c.graph[n] <==> t != n && exists d <- dependencies :: LeadsTo(choices, n, d, t) {
      TargetsLead(choices, n, dependencies, t);
    }
    forall t | t in c.graph[n] ensures t in c.members { assert t in c.graph.Keys; }
    forall name
      ensures (n in c.unresolved && name in c.unresolved[n]) <==> OpenChoice(choices, n, dependencies, name)
    {
      UndecidedAreOpen(choices, n, dependencies, name);
    }
    if n in c.unresolved { assert c.unresolved[n][0] in c.unresolved[n]; }
  }

  /** A member without a revision to read has no edges and no open choices. */
  lemma UnknownHasNoEdges(c: Closure, revisions: seq<Revision>, choices: Choices, n: string)
    requires Exact(c, revisions, choices) && n in c.members && forall i: nat :: !ReadFrom(revisions, n, i)
    ensures c.graph[n] == {} && n !in c.unresolved
  {
    hide ReadFrom, ReachedFrom, AllEdges;
    DependenciesRead(revisions, n);
  }
}
