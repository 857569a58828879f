/** Which packages the repository should serve: the desired state, and the clean-up that must not disturb it. */
module Planning {
  import opened Protocol
  import opened Order
  import opened Store
  import opened Graph
  import opened Closure
  import opened Builds

  // ---------------------------------------------------------------- the order of artifact records

  /** Records compare field by field. */
  function CompareRecords(a: ArtifactRecord, b: ArtifactRecord): Ordering {
    Then(Compare(a.file, b.file), Then(Compare(a.sha256, b.sha256), Then(CompareSizes(a.size, b.size),
      Then(Compare(a.packageName, b.packageName),
          Then(Compare(a.packageVersion, b.packageVersion), Compare(a.architecture, b.architecture))))))
  }

  lemma RecordsReverse(a: ArtifactRecord, b: ArtifactRecord)
    ensures CompareRecords(a, b) == Reverse(CompareRecords(b, a)) && (CompareRecords(a, b) == Same <==> a == b)
  {
    hide Compare;
    CompareIsOrder(a.file, b.file);
    CompareIsOrder(a.sha256, b.sha256);
    CompareIsOrder(a.packageName, b.packageName);
    CompareIsOrder(a.packageVersion, b.packageVersion);
    CompareIsOrder(a.architecture, b.architecture);
  }

  lemma RecordsTransitive(a: ArtifactRecord, b: ArtifactRecord, c: ArtifactRecord)
    requires CompareRecords(a, b) != Greater && CompareRecords(b, c) != Greater
    ensures CompareRecords(a, c) != Greater
  {
    hide Compare;
    Transitive(a.file, b.file, c.file);
    if Compare(a.file, c.file) == Same {
      Transitive(a.sha256, b.sha256, c.sha256);
      if Compare(a.sha256, c.sha256) == Same && a.size == b.size == c.size {
        Transitive(a.packageName, b.packageName, c.packageName);
        if Compare(a.packageName, c.packageName) == Same {
          Transitive(a.packageVersion, b.packageVersion, c.packageVersion);
          if Compare(a.packageVersion, c.packageVersion) == Same {
            Transitive(a.architecture, b.architecture, c.architecture);
          }
        }
      }
    }
  }

  /** Records are totally ordered. */
  lemma RecordsAreOrdered()
    ensures Consistent(CompareRecords) && Distinguishes(CompareRecords)
  {
    hide CompareRecords;
    forall a, b
        ensures CompareRecords(a, b) == Reverse(CompareRecords(b, a)) && (CompareRecords(a, b) == Same <==> a == b) {
      RecordsReverse(a, b);
    }
    forall a, b, c | CompareRecords(a, b) != Greater && CompareRecords(b, c) != Greater
        ensures CompareRecords(a, c) != Greater {
      RecordsTransitive(a, b, c);
    }
  }

  // ---------------------------------------------------------------- which packages

  datatype Desired = Desired(plan: PublishPlan, sources: map<string, nat>, withheld: set<string>)

  /** The usable build of every member that has one. */
  function Chosen(revisions: seq<Revision>, b: Board, c: Closure): map<string, nat> {
    map base | base in c.members && UsableBuild(revisions, b, base).Some? :: UsableBuild(revisions, b, base).value
  }

  /** Members that need, directly or not, a package without a usable build. */
  ghost function Withheld(c: Closure, chosen: map<string, nat>): set<string> {
    set base | base in c.members && !(ClosureSet(c.graph, {base}) <= chosen.Keys)
  }

  ghost function PublishedBases(revisions: seq<Revision>, b: Board, c: Closure): set<string> {
    Chosen(revisions, b, c).Keys - Withheld(c, Chosen(revisions, b, c))
  }

  lemma DepsReachable(g: Edges, base: string, d: string)
    requires d in Deps(g, base)
    ensures ClosureSet(g, {d}) <= ClosureSet(g, {base})
  {
    ClosureSetIsExact(g, {base});
    ClosureSetIsExact(g, {d});
    assert IsClosed(g, ClosureSet(g, {base})) by {
      forall n, m | n in ClosureSet(g, {base}) && m in Deps(g, n) ensures m in ClosureSet(g, {base}) {
        ReachedStep(g, {base}, n, m);
      }
    }
    ReachedRoot(g, {base}, base);
    ReachedStep(g, {base}, base, d);
    ClosedHoldsReached(g, {d}, ClosureSet(g, {base}));
  }

  /** The package bases that the plan publishes are the greatest choice closed under dependencies: whatever a published
      package needs is published, and every set of members with usable builds that is closed under dependencies is
      published whole. Dependencies are all resolved and chosen edges, which an exact closure follows. */
  lemma PublishedIsGreatest(revisions: seq<Revision>, b: Board, c: Closure, choices: Choices, s: set<string>)
    requires Exact(c, revisions, choices)
    ensures var all, published := AllEdges(revisions, choices), PublishedBases(revisions, b, c);
            && published <= c.members && IsClosed(all, published)
            && (forall base <- published :: UsableBuild(revisions, b, base).Some?)
            && (IsClosed(all, s) && s <= c.members && (forall base <- s :: UsableBuild(revisions, b, base).Some?) ==>
                s <= published)
  {
    hide UsableBuild;
    var all, published, chosen := AllEdges(revisions, choices), PublishedBases(revisions, b, c),
        Chosen(revisions, b, c);
    forall base | base in c.members ensures Deps(c.graph, base) == Deps(all, base) && Deps(all, base) <= c.members {
      DepsOfMember(revisions, c, choices, base);
    }
    forall base, d | base in published && d in Deps(all, base) ensures d in published {
      DepsReachable(c.graph, base, d);
      ClosureSetIsExact(c.graph, {d});
      ReachedRoot(c.graph, {d}, d);
    }
    if IsClosed(all, s) && s <= c.members && (forall base <- s :: UsableBuild(revisions, b, base).Some?) {
      assert IsClosed(c.graph, s);
      forall base | base in s ensures base in published {
        ClosureSetIsExact(c.graph, {base});
        ClosedHoldsReached(c.graph, {base}, s);
        assert ClosureSet(c.graph, {base}) <= chosen.Keys;
      }
    }
  }

  lemma DepsOfMember(revisions: seq<Revision>, c: Closure, choices: Choices, base: string)
    requires Exact(c, revisions, choices) && base in c.members
    ensures Deps(c.graph, base) == Deps(AllEdges(revisions, choices), base) && Deps(c.graph, base) <= c.members
  {
  }

  // ---------------------------------------------------------------- the plan

  /** The artifacts of the chosen builds, package base after package base. */
  function Collected(b: Board, chosen: map<string, nat>, bases: seq<string>): seq<ArtifactRecord>
    requires forall base <- bases :: base in chosen && chosen[base] < |b.builds|
  {
    if |bases| == 0 then [] else
    Collected(b, chosen, bases[..|bases| - 1]) + b.builds[chosen[bases[|bases| - 1]]].artifacts
  }

  ghost predicate Listing(bases: seq<string>, published: set<string>) {
    NoRepeats(bases) && Elements(bases) == published
  }

  lemma ChosenExist(revisions: seq<Revision>, b: Board, c: Closure)
    ensures forall base <- Chosen(revisions, b, c) :: Chosen(revisions, b, c)[base] < |b.builds|
  {
    hide LatestApproved, UsableAmong;
  }

  lemma {:induction false} ListingExists(published: set<string>) returns (bases: seq<string>)
    ensures Listing(bases, published)
  {
    if published == {} {
      bases := [];
    } else {
      var x :| x in published;
      var rest := ListingExists(published - {x});
      bases := rest + [x];
      assert Elements(bases) == Elements(rest) + {x};
    }
  }

  /** The planned artifacts, or nothing when two of them are packages of the same name. Package bases may be listed in
      any order; `ListingDoesNotMatter` shows that the order is irrelevant. */
  ghost function PlannedArtifacts(revisions: seq<Revision>, b: Board, c: Closure): Option<seq<ArtifactRecord>> {
    ChosenExist(revisions, b, c);
    var chosen, published := Chosen(revisions, b, c), PublishedBases(revisions, b, c);
    var bases :| Listing(bases, published) || !exists l :: Listing(l, published);
    if !Listing(bases, published) then None else
    assert forall base <- bases :: base in Elements(bases);
    var all := Collected(b, chosen, bases);
    if DistinctNames(all) then Some(Sort(CompareRecords, all)) else None
  }

  lemma CollectedPush(b: Board, chosen: map<string, nat>, bases: seq<string>, base: string)
    requires forall other <- bases + [base] :: other in chosen && chosen[other] < |b.builds|
    ensures (forall other <- bases :: other in chosen && chosen[other] < |b.builds|) && base in chosen
        && chosen[base] < |b.builds|
    ensures Collected(b, chosen, bases + [base]) == Collected(b, chosen, bases) + b.builds[chosen[base]].artifacts
  {
    assert forall other <- bases :: other in bases + [base];
    assert base in bases + [base];
    assert (bases + [base])[..|bases|] == bases;
  }

  lemma {:induction false} CollectedWithout(b: Board, chosen: map<string, nat>, bases: seq<string>, i: nat)
    requires i < |bases| && forall base <- bases :: base in chosen && chosen[base] < |b.builds|
    ensures multiset(Collected(b, chosen, bases))
         == multiset(Collected(b, chosen, bases[..i] + bases[i + 1..])) + multiset(b.builds[chosen[bases[i]]].artifacts)
  {
    hide Collected;
    var n := |bases| - 1;
    var before, last, rest := bases[..n], bases[n], bases[..i] + bases[i + 1..];
    assert bases == before + [last];
    CollectedPush(b, chosen, before, last);
    if i == n {
      assert rest == before;
    } else {
      var fewer := before[..i] + before[i + 1..];
      assert rest == fewer + [last];
      assert forall other <- rest :: other in bases;
      CollectedPush(b, chosen, fewer, last);
      CollectedWithout(b, chosen, before, i);
    }
  }

  lemma {:induction false} CollectedAnyOrder(b: Board, chosen: map<string, nat>, l: seq<string>, m: seq<string>)
    requires NoRepeats(l) && NoRepeats(m) && Elements(l) == Elements(m)
    requires forall base <- l :: base in chosen && chosen[base] < |b.builds|
    requires forall base <- m :: base in chosen && chosen[base] < |b.builds|
    ensures multiset(Collected(b, chosen, l)) == multiset(Collected(b, chosen, m))
  {
    if |l| == 0 {
      NonemptyListing(m);
    } else {
      var n := |l| - 1;
      var x := l[n];
      assert x in Elements(m);
      var i :| 0 <= i < |m| && m[i] == x;
      CollectedWithout(b, chosen, m, i);
      var rest := m[..i] + m[i + 1..];
      RestOfListing(m, i);
      RestOfListing(l, n);
      assert l[..n] + l[n + 1..] == l[..n];
      CollectedAnyOrder(b, chosen, l[..n], rest);
    }
  }

  lemma NonemptyListing(m: seq<string>)
    ensures m != [] ==> Elements(m) != {}
  {
    if m != [] { assert m[0] in Elements(m); }
  }

  lemma RestOfListing(m: seq<string>, i: nat)
    requires i < |m| && NoRepeats(m)
    ensures var rest := m[..i] + m[i + 1..]; NoRepeats(rest) && Elements(rest) == Elements(m) - {m[i]}
  {
    var rest := m[..i] + m[i + 1..];
    forall x | x in Elements(m) - {m[i]} ensures x in rest {
      var j :| 0 <= j < |m| && m[j] == x;
      assert rest[if j < i then j else j - 1] == x;
    }
  }

  lemma {:induction false} Twice(s: seq<ArtifactRecord>, x: ArtifactRecord) returns (i: nat, j: nat)
    requires multiset(s)[x] >= 2
    ensures i < j < |s| && s[i] == x == s[j]
  {
    var n := |s| - 1;
    assert s == s[..n] + [s[n]];
    if multiset(s[..n])[x] >= 2 {
      i, j := Twice(s[..n], x);
    } else {
      assert s[n] == x && x in multiset(s[..n]);
      i :| 0 <= i < n && s[i] == x;
      j := n;
    }
  }

  lemma SameNamesApart(s: seq<ArtifactRecord>, t: seq<ArtifactRecord>)
    requires multiset(s) == multiset(t) && DistinctNames(s)
    ensures DistinctNames(t)
  {
    forall i, j | 0 <= i < j < |t| ensures t[i].packageName != t[j].packageName {
      assert t[i] in multiset(s) && t[j] in multiset(s);
      if t[i] == t[j] {
        assert t == t[..j] + [t[j]] + t[j + 1..];
        assert t[i] in t[..j] && multiset(t)[t[i]] >= 2;
        var p, q := Twice(s, t[i]);
        assert false;
      }
    }
  }

  /** The sorted artifact list depends only on which package bases are published, not on the order they are taken in. */
  lemma ListingDoesNotMatter(revisions: seq<Revision>, b: Board, c: Closure, bases: seq<string>)
    requires Listing(bases, PublishedBases(revisions, b, c))
    ensures forall base <- bases :: base in Chosen(revisions, b, c) && Chosen(revisions, b, c)[base] < |b.builds|
    ensures var all := Collected(b, Chosen(revisions, b, c), bases);
            PlannedArtifacts(revisions, b, c) == if DistinctNames(all) then Some(Sort(CompareRecords, all)) else None
  {
    hide UsableBuild, ClosureSet, DistinctNames;
    ChosenExist(revisions, b, c);
    var chosen, published := Chosen(revisions, b, c), PublishedBases(revisions, b, c);
    forall base <- bases ensures base in chosen { assert base in Elements(bases); }
    var all := Collected(b, chosen, bases);
    RecordsAreOrdered();
    forall other | Listing(other, published)
      ensures (forall base <- other :: base in chosen) && var more := Collected(b, chosen, other);
              (DistinctNames(all) <==> DistinctNames(more)) && Sort(CompareRecords, all) == Sort(CompareRecords, more)
    {
      forall base <- other ensures base in chosen { assert base in Elements(other); }
      CollectedAnyOrder(b, chosen, bases, other);
      var more := Collected(b, chosen, other);
      if DistinctNames(all) { SameNamesApart(all, more); }
      if DistinctNames(more) { SameNamesApart(more, all); }
      SortsAlike(CompareRecords, all, more);
    }
  }

  lemma {:induction false} CollectedComesFrom(b: Board, chosen: map<string, nat>, bases: seq<string>)
    requires forall base <- bases :: base in chosen && chosen[base] < |b.builds|
    ensures forall a :: a in Collected(b, chosen, bases) <==> exists base ::
        base in bases && a in b.builds[chosen[base]].artifacts
  {
    if |bases| > 0 {
      CollectedComesFrom(b, chosen, bases[..|bases| - 1]);
      assert bases == bases[..|bases| - 1] + [bases[|bases| - 1]];
    }
  }

  /** The plan lists exactly the artifacts of the chosen builds of the published package bases, sorted, one per package
      name. */
  lemma PlanIsExact(revisions: seq<Revision>, b: Board, c: Closure)
    requires PlannedArtifacts(revisions, b, c).Some?
    ensures var planned, chosen := PlannedArtifacts(revisions, b, c).value, Chosen(revisions, b, c);
            && Sorted(CompareRecords, planned) && DistinctNames(planned)
            && forall a :: a in planned <==>
                 exists base ::
                     base in PublishedBases(revisions, b, c) && chosen[base] < |b.builds|
                     && a in b.builds[chosen[base]].artifacts
  {
    hide UsableBuild, ClosureSet, DistinctNames, Sort;
    ChosenExist(revisions, b, c);
    var bases := ListingExists(PublishedBases(revisions, b, c));
    ListingDoesNotMatter(revisions, b, c, bases);
    var chosen := Chosen(revisions, b, c);
    var all := Collected(b, chosen, bases);
    RecordsAreOrdered();
    SortSorts(CompareRecords, all);
    SameNamesApart(all, Sort(CompareRecords, all));
    CollectedComesFrom(b, chosen, bases);
    forall a ensures a in Sort(CompareRecords, all) <==> a in all {
        assert a in Sort(CompareRecords, all) <==> a in multiset(Sort(CompareRecords, all)); }
    forall base ensures base in bases <==> base in PublishedBases(revisions, b, c) {
        assert base in bases <==> base in Elements(bases); }
  }

  // ---------------------------------------------------------------- cleaning up

  datatype PublicationState = Pending | Released | Declined

  /** A row of the publication table; `finishedAt` is set once the signer has answered or timed out. */
  datatype Publication = Publication(plan: PublishPlan, state: PublicationState, createdAt: nat, finishedAt: nat)

  const KEPT_PUBLICATIONS: nat := 3

  /** The newest three publications. */
  function Recent(publications: seq<Publication>): seq<Publication> {
    if |publications| <= KEPT_PUBLICATIONS then publications else publications[|publications| - KEPT_PUBLICATIONS..]
  }

  function Referenced(publications: seq<Publication>): set<string> {
    set p, a | p in Recent(publications) && a in p.plan.artifacts :: a.sha256
  }

  predicate SharesDigest(b: Board, id: nat, referenced: set<string>)
    requires id < |b.builds|
  {
    exists a <- b.builds[id].artifacts :: a.sha256 in referenced
  }

  /** The builds whose directories stay: usable ones of members, and succeeded ones that a recent publication refers
      to. */
  function Kept(revisions: seq<Revision>, b: Board, c: Closure, publications: seq<Publication>): set<nat> {
    (set base | base in Chosen(revisions, b, c) :: Chosen(revisions, b, c)[base])
      + set id | 0 <= id < |b.builds| && b.builds[id].state == Succeeded
          && SharesDigest(b, id, Referenced(publications))
  }

  function Cleaned(revisions: seq<Revision>, b: Board, c: Closure, publications: seq<Publication>): Board {
    Sweep(b, Kept(revisions, b, c, publications))
  }

  lemma BestIgnoresDirectories(b: Board, e: Board, latest: Option<nat>, base: string, seen: set<nat>, n: nat)
    requires e.builds == b.builds && n <= |b.builds|
    ensures Best(e, latest, base, seen, n) == Best(b, latest, base, seen, n)
  {
    if n > 0 { BestIgnoresDirectories(b, e, latest, base, seen, n - 1); }
  }

  lemma {:induction false} UsableSurvives(b: Board, keep: set<nat>, latest: Option<nat>, base: string, seen: set<nat>,
      k: nat)
    requires var r := UsableAmong(b, latest, base, seen, k); r.Some? ==> r.value in keep
    ensures UsableAmong(Sweep(b, keep), latest, base, seen, k) == UsableAmong(b, latest, base, seen, k)
    decreases k
  {
    hide Best;
    if k > 0 {
      var e := Sweep(b, keep);
      BestIgnoresDirectories(b, e, latest, base, seen, |b.builds|);
      var best := Best(b, latest, base, seen, |b.builds|);
      if best.Some? {
        if Present(b, best.value) {
          PresentStays(b, keep, best.value);
        } else {
          PresentBefore(b, keep, best.value);
          UsableSurvives(b, keep, latest, base, seen + {best.value}, k - 1);
        }
      }
    }
  }

  lemma PresentStays(b: Board, keep: set<nat>, id: nat)
    requires id < |b.builds| && id in keep && Present(b, id)
    ensures Present(Sweep(b, keep), id)
  {
    forall a <- b.builds[id].artifacts ensures SlotOf(Sweep(b, keep), id, a.file).stored.Some? {
      assert SlotOf(b, id, a.file).stored.Some?;
    }
  }

  lemma PresentBefore(b: Board, keep: set<nat>, id: nat)
    requires id < |b.builds|
    ensures Present(Sweep(b, keep), id) ==> Present(b, id)
  {
    if Present(Sweep(b, keep), id) {
      forall a <- b.builds[id].artifacts ensures SlotOf(b, id, a.file).stored.Some? {
        assert SlotOf(Sweep(b, keep), id, a.file).stored.Some?;
      }
    }
  }

  /** Cleaning up is invisible to planning: every member keeps its usable build, so the plan and what is withheld stay
      the same; a running or uploading build's directory stays; and a succeeded build that shares a digest with one of
      the three newest publications keeps its files. */
  lemma CleaningIsInvisible(revisions: seq<Revision>, b: Board, c: Closure, publications: seq<Publication>)
    ensures var e := Cleaned(revisions, b, c, publications);
            && (forall base <- c.members :: UsableBuild(revisions, e, base) == UsableBuild(revisions, b, base))
            && Chosen(revisions, e, c) == Chosen(revisions, b, c)
            && PublishedBases(revisions, e, c) == PublishedBases(revisions, b, c)
            && PlannedArtifacts(revisions, e, c) == PlannedArtifacts(revisions, b, c)
            && (forall id <- b.directories | InProgress(b, id) ::
                id in e.directories && e.directories[id] == b.directories[id])
            && (forall id <- b.directories | id < |b.builds| && b.builds[id].state == Succeeded
                && SharesDigest(b, id, Referenced(publications)) ::
                  id in e.directories && e.directories[id] == b.directories[id])
  {
    hide PlannedArtifacts, ClosureSet, LatestApproved, UsableAmong, PublishedBases, SharesDigest;
    var e := Cleaned(revisions, b, c, publications);
    forall base <- c.members ensures UsableBuild(revisions, e, base) == UsableBuild(revisions, b, base) {
      if UsableBuild(revisions, b, base).Some? { assert base in Chosen(revisions, b, c); }
      UsableSurvives(b, Kept(revisions, b, c, publications), LatestApproved(revisions, base), base, {}, LOOK_AT);
    }
    assert Chosen(revisions, e, c) == Chosen(revisions, b, c);
    SamePlan(revisions, b, e, c);
  }

  lemma {:induction false} CollectedSame(b: Board, e: Board, chosen: map<string, nat>, bases: seq<string>)
    requires e.builds == b.builds && forall base <- bases :: base in chosen && chosen[base] < |b.builds|
    ensures Collected(e, chosen, bases) == Collected(b, chosen, bases)
  {
    if |bases| > 0 { CollectedSame(b, e, chosen, bases[..|bases| - 1]); }
  }

  /** The same choice of builds gives the same plan. */
  lemma SamePlan(revisions: seq<Revision>, b: Board, e: Board, c: Closure)
    requires e.builds == b.builds && Chosen(revisions, e, c) == Chosen(revisions, b, c)
    ensures PublishedBases(revisions, e, c) == PublishedBases(revisions, b, c)
    ensures PlannedArtifacts(revisions, e, c) == PlannedArtifacts(revisions, b, c)
  {
    hide PlannedArtifacts, Chosen, ClosureSet;
    var bases := ListingExists(PublishedBases(revisions, b, c));
    ListingDoesNotMatter(revisions, b, c, bases);
    ListingDoesNotMatter(revisions, e, c, bases);
    CollectedSame(b, e, Chosen(revisions, b, c), bases);
  }

  // ---------------------------------------------------------------- the planner

  /** Planning reads the build table and, when it cleans up, removes directories from it. */
  class Planner {
    const table: BuildTable
    const repositoryName: string

    constructor (table: BuildTable, repositoryName: string)
      ensures this.table == table && this.repositoryName == repositoryName
    {
      this.table, this.repositoryName := table, repositoryName;
    }

    method Choose(revisions: seq<Revision>, c: Closure, members: seq<string>) returns (chosen: map<string, nat>)
      requires Elements(members) == c.members
      ensures chosen == Chosen(revisions, table.Value(), c)
    {
      hide UsableBuild;
      chosen := map[];
      for i := 0 to |members|
        invariant forall base ::
            base in chosen <==> base in members[..i] && UsableBuild(revisions, table.Value(), base).Some?
        invariant forall base <- chosen :: UsableBuild(revisions, table.Value(), base) == Some(chosen[base])
      {
        assert members[..i + 1] == members[..i] + [members[i]];
        var found := table.FindUsable(revisions, members[i]);
        if found.Some? { chosen := chosen[members[i] := found.value]; }
      }
      assert members[..|members|] == members;
      assert forall base :: base in members <==> base in Elements(members);
    }

    method Withhold(c: Closure, members: seq<string>, chosen: map<string, nat>) returns (withheld: set<string>)
      requires Elements(members) == c.members
      ensures withheld == Withheld(c, chosen)
    {
      hide ReachedFrom;
      withheld := {};
      for i := 0 to |members|
        invariant forall base ::
            base in withheld <==> base in members[..i] && !(ClosureSet(c.graph, {base}) <= chosen.Keys)
      {
        assert members[..i + 1] == members[..i] + [members[i]];
        var graph := new DependencyGraph.FromEdges(c.graph);
        var reached := graph.Closure([members[i]]);
        assert Elements([members[i]]) == {members[i]};
        ClosureSetIsExact(c.graph, {members[i]});
        assert reached == ClosureSet(c.graph, {members[i]});
        if exists member <- reached :: member !in chosen { withheld := withheld + {members[i]}; }
      }
      assert members[..|members|] == members;
      assert forall base :: base in members <==> base in Elements(members);
    }

    /** Take the artifacts of one build; a second package of the same name ends the planning. */
    method Take(id: nat, all: seq<ArtifactRecord>, names: set<string>, sources: map<string, nat>)
      returns (ok: bool, all': seq<ArtifactRecord>, names': set<string>, sources': map<string, nat>)
      requires id < |table.builds| && DistinctNames(all) && names == NamesOf(all)
          && Sourced(table.Value(), sources, all)
      ensures ok <==> DistinctNames(all + table.builds[id].artifacts)
      ensures ok ==>
          all' == all + table.builds[id].artifacts && names' == NamesOf(all') && Sourced(table.Value(), sources', all')
      ensures sources'.Values <= sources.Values + {id}
    {
      hide DistinctNames, NamesOf, Sourced;
      var records := table.builds[id].artifacts;
      ok, all', names', sources' := true, all, names, sources;
      assert all + records[..0] == all;
      for i := 0 to |records|
        invariant all' == all + records[..i] && DistinctNames(all') && names' == NamesOf(all')
        invariant Sourced(table.Value(), sources', all') && sources'.Values <= sources.Values + {id}
      {
        var a := records[i];
        assert all + records[..i + 1] == all + records[..i] + [a];
        assert (all + records)[..|all| + i] == all' && (all + records)[|all| + i] == a;
        NamesPush(all', a);
        if a.packageName in names' {
          NameTaken(all + records, |all| + i);
          return false, all', names', sources';
        }
        SourcedPush(table.Value(), sources', all', a, id);
        all', names', sources' := all' + [a], names' + {a.packageName}, sources'[a.file := id];
      }
      assert records[..|records|] == records;
    }

    /** The desired state: every member's usable build, except where a dependency has none; sorted; at most one package
        of each name. Every planned file has a source build that has an artifact of that name. */
    method DesiredState(revisions: seq<Revision>, c: Closure) returns (desired: Option<Desired>)
      ensures desired.Some? <==> PlannedArtifacts(revisions, table.Value(), c).Some?
      ensures desired.Some? ==>
                && desired.value.plan == PublishPlan(PUBLISH_PLAN_FORMAT, repositoryName,
                    PlannedArtifacts(revisions, table.Value(), c).value)
                && desired.value.withheld == Withheld(c, Chosen(revisions, table.Value(), c))
                && Sourced(table.Value(), desired.value.sources, desired.value.plan.artifacts)
                && forall id <- desired.value.sources.Values ::
                     exists base <- PublishedBases(revisions, table.Value(), c) ::
                         Chosen(revisions, table.Value(), c)[base] == id
    {
      hide UsableBuild, ClosureSet, PlannedArtifacts, DistinctNames, Sort, Chosen;
      var members := ListSet(c.members);
      var chosen := Choose(revisions, c, members);
      var withheld := Withhold(c, members, chosen);
      ghost var b := table.Value();
      ChosenExist(revisions, b, c);
      var bases := ListDistinct(chosen.Keys - withheld);
      assert Listing(bases, PublishedBases(revisions, b, c));
      ListingDoesNotMatter(revisions, b, c, bases);
      var gathered, all, sources := Gather(chosen, bases);
      if !gathered { return None; }
      SortedHas(all);
      SourcedSubset(b, sources, all, Sort(CompareRecords, all));
      desired := Some(Desired(PublishPlan(PUBLISH_PLAN_FORMAT, repositoryName, Sort(CompareRecords, all)), sources,
          withheld));
    }

    method Gather(chosen: map<string, nat>, bases: seq<string>)
      returns (ok: bool, all: seq<ArtifactRecord>, sources: map<string, nat>)
      requires forall base <- bases :: base in chosen && chosen[base] < |table.builds|
      ensures ok <==> DistinctNames(Collected(table.Value(), chosen, bases))
      ensures ok ==> all == Collected(table.Value(), chosen, bases) && Sourced(table.Value(), sources, all)
      ensures ok ==> forall id <- sources.Values :: exists base <- bases :: chosen[base] == id
    {
      var names: set<string>;
      ok, all, sources, names := true, [], map[], {};
      for i := 0 to |bases|
        invariant all == Collected(table.Value(), chosen, bases[..i]) && DistinctNames(all) && names == NamesOf(all)
        invariant Sourced(table.Value(), sources, all)
        invariant forall id <- sources.Values :: exists base <- bases :: chosen[base] == id
      {
        hide DistinctNames, NamesOf, Sourced;
        assert bases[..i + 1][..i] == bases[..i];
        ghost var next := Collected(table.Value(), chosen, bases[..i + 1]);
        assert next == all + table.builds[chosen[bases[i]]].artifacts;
        assert bases[i] in bases;
        ok, all, names, sources := Take(chosen[bases[i]], all, names, sources);
        if !ok {
          CollectedPrefix(table.Value(), chosen, bases, i + 1);
          PrefixNames(next, Collected(table.Value(), chosen, bases));
          return;
        }
      }
      assert bases[..|bases|] == bases;
    }

    /** The builds to keep: chosen ones, and succeeded ones that a recent publication refers to. */
    method Keep(revisions: seq<Revision>, c: Closure, publications: seq<Publication>) returns (keep: set<nat>)
      ensures keep == Kept(revisions, table.Value(), c, publications)
    {
      hide UsableBuild;
      var members := ListSet(c.members);
      var chosen := Choose(revisions, c, members);
      var used := set base | base in chosen :: chosen[base];
      var referenced := set p, a | p in Recent(publications) && a in p.plan.artifacts :: a.sha256;
      keep := used;
      for i := 0 to |table.builds|
        invariant keep == used + set id | 0 <= id < i && table.builds[id].state == Succeeded
            && SharesDigest(table.Value(), id, referenced)
      {
        if table.builds[i].state == Succeeded && exists a <- table.builds[i].artifacts :: a.sha256 in referenced {
          keep := keep + {i};
        }
      }
    }

    /** Delete what no plan can use any more. */
    method CollectGarbage(revisions: seq<Revision>, c: Closure, publications: seq<Publication>) returns (removed: nat)
      modifies table
      ensures table.Value() == Cleaned(revisions, old(table.Value()), c, publications)
      ensures BoardInv(table.sha, revisions, old(table.Value())) ==> BoardInv(table.sha, revisions, table.Value())
    {
      hide BoardInv, Kept, Sweep;
      ghost var start := table.Value();
      var keep := Keep(revisions, c, publications);
      removed := table.RemoveOthers(keep);
      if BoardInv(table.sha, revisions, start) { SweepKeeps(table.sha, revisions, start, keep); }
    }
  }

  /** Every listed file has a source, and every source is a build with an artifact of that file name. */
  ghost predicate Sourced(b: Board, sources: map<string, nat>, all: seq<ArtifactRecord>) {
    && (forall a <- all :: a.file in sources)
    && forall file <- sources :: sources[file] < |b.builds| && exists a <- b.builds[sources[file]].artifacts ::
        a.file == file
  }

  lemma NamesPush(all: seq<ArtifactRecord>, a: ArtifactRecord)
    ensures NamesOf(all + [a]) == NamesOf(all) + {a.packageName}
    ensures DistinctNames(all) && a.packageName !in NamesOf(all) ==> DistinctNames(all + [a])
  {
  }

  lemma SourcedPush(b: Board, sources: map<string, nat>, all: seq<ArtifactRecord>, a: ArtifactRecord, id: nat)
    requires Sourced(b, sources, all) && id < |b.builds| && a in b.builds[id].artifacts
    ensures Sourced(b, sources[a.file := id], all + [a]) && sources[a.file := id].Values <= sources.Values + {id}
  {
  }

  lemma SourcedSubset(b: Board, sources: map<string, nat>, all: seq<ArtifactRecord>, some: seq<ArtifactRecord>)
    requires Sourced(b, sources, all) && forall a <- some :: a in all
    ensures Sourced(b, sources, some)
  {
  }

  lemma NameTaken(all: seq<ArtifactRecord>, i: nat)
    requires i < |all| && all[i].packageName in NamesOf(all[..i])
    ensures !DistinctNames(all)
  {
    var a :| a in all[..i] && a.packageName == all[i].packageName;
    var j :| 0 <= j < i && all[..i][j] == a;
    assert all[j] == a;
  }

  lemma PrefixNames(a: seq<ArtifactRecord>, b: seq<ArtifactRecord>)
    requires a <= b
    ensures DistinctNames(b) ==> DistinctNames(a)
  {
    assert forall i :: 0 <= i < |a| ==> a[i] == b[i];
  }

  lemma {:induction false} CollectedPrefix(b: Board, chosen: map<string, nat>, bases: seq<string>, i: nat)
    requires i <= |bases| && forall base <- bases :: base in chosen && chosen[base] < |b.builds|
    ensures Collected(b, chosen, bases[..i]) <= Collected(b, chosen, bases)
  {
    if i == |bases| { assert bases[..i] == bases; }
    else {
      CollectedPrefix(b, chosen, bases[..|bases| - 1], i);
      assert bases[..|bases| - 1][..i] == bases[..i];
    }
  }

  lemma SortedHas(all: seq<ArtifactRecord>)
    ensures forall a <- Sort(CompareRecords, all) :: a in all
  {
    RecordsAreOrdered();
    SortSorts(CompareRecords, all);
    forall a <- Sort(CompareRecords, all) ensures a in all { assert a in multiset(Sort(CompareRecords, all)); }
  }

  method ListDistinct(names: set<string>) returns (list: seq<string>)
    ensures Listing(list, names)
  {
    list := [];
    var rest := names;
    while rest != {}
      invariant rest <= names && Elements(list) == names - rest && NoRepeats(list)
    {
      var x :| x in rest;
      ghost var was := Elements(list);
      assert forall y <- list :: y in Elements(list);
      list, rest := list + [x], rest - {x};
      assert Elements(list) == was + {x};
    }
  }
}
