/** Which builds make up the plan and which stay on disk, said of the rows themselves. */
module Selection {
  import opened Protocol
  import opened Order
  import opened Store
  import opened Graph
  import opened Closure
  import opened Upload
  import opened Builds
  import opened Lifecycle
  import opened Planning

  // ---------------------------------------------------------------- the order of the plan

  /** The text comes first: it ends where the other goes on, or at the first difference it has the smaller character. */
  ghost predicate TextBefore(a: string, b: string) {
    exists k :: 0 <= k <= |a| && k <= |b| && a[..k] == b[..k]
      && (if k == |a| then k < |b| else k < |b| && a[k] < b[k])
  }

  lemma {:induction false} CompareIsText(a: string, b: string)
    ensures Compare(a, b) == Less <==> TextBefore(a, b)
  {
    if |a| > 0 && |b| > 0 && a[0] == b[0] {
      CompareIsText(a[1..], b[1..]);
      if Compare(a[1..], b[1..]) == Less {
        var k :| 0 <= k <= |a[1..]| && k <= |b[1..]| && a[1..][..k] == b[1..][..k]
          && (if k == |a[1..]| then k < |b[1..]| else k < |b[1..]| && a[1..][k] < b[1..][k]);
        assert a[..k + 1] == [a[0]] + a[1..][..k] && b[..k + 1] == [b[0]] + b[1..][..k];
      }
      if TextBefore(a, b) {
        var k :| 0 <= k <= |a| && k <= |b| && a[..k] == b[..k]
          && (if k == |a| then k < |b| else k < |b| && a[k] < b[k]);
        assert k > 0;
        assert a[1..][..k - 1] == a[..k][1..] && b[1..][..k - 1] == b[..k][1..];
        assert TextBefore(a[1..], b[1..]);
      }
    } else if |a| == 0 {
      assert a[..0] == b[..0];
    } else if |b| > 0 {
      assert a[..0] == b[..0];
      assert forall k :: 0 < k <= |a| && k <= |b| ==> a[..k][0] == a[0] && b[..k][0] == b[0];
    }
  }

  /** The record comes first: by file, then digest, size, package name, version and architecture. */
  ghost predicate RecordBefore(a: ArtifactRecord, b: ArtifactRecord) {
    || TextBefore(a.file, b.file)
    || (a.file == b.file &&
        (|| TextBefore(a.sha256, b.sha256)
         || (a.sha256 == b.sha256 &&
             (|| a.size < b.size
              || (a.size == b.size &&
                  (|| TextBefore(a.packageName, b.packageName)
                   || (a.packageName == b.packageName &&
                       (|| TextBefore(a.packageVersion, b.packageVersion)
                        || (a.packageVersion == b.packageVersion && TextBefore(a.architecture, b.architecture))))))))))
  }

  lemma CompareIsRecord(a: ArtifactRecord, b: ArtifactRecord)
    ensures CompareRecords(a, b) == Less <==> RecordBefore(a, b)
  {
    hide Compare, TextBefore;
    CompareIsText(a.file, b.file);
    CompareIsText(a.sha256, b.sha256);
    CompareIsText(a.packageName, b.packageName);
    CompareIsText(a.packageVersion, b.packageVersion);
    CompareIsText(a.architecture, b.architecture);
    CompareIsOrder(a.file, b.file);
    CompareIsOrder(a.sha256, b.sha256);
    CompareIsOrder(a.packageName, b.packageName);
    CompareIsOrder(a.packageVersion, b.packageVersion);
  }

  /** The artifacts of a plan are in that order. */
  lemma PlanIsInOrder(revisions: seq<Revision>, b: Board, c: Closure, i: nat, j: nat)
    requires PlannedArtifacts(revisions, b, c).Some? && i < j < |PlannedArtifacts(revisions, b, c).value|
    ensures var planned := PlannedArtifacts(revisions, b, c).value; RecordBefore(planned[i], planned[j])
  {
    hide PlannedArtifacts, CompareRecords, RecordBefore, PublishedBases, Chosen;
    PlanIsExact(revisions, b, c);
    var planned := PlannedArtifacts(revisions, b, c).value;
    RecordsAreOrdered();
    CompareIsRecord(planned[i], planned[j]);
    assert CompareRecords(planned[i], planned[j]) != Greater;
    assert planned[i].packageName != planned[j].packageName;
  }

  // ---------------------------------------------------------------- the builds of the plan

  /** What the plan takes of a package: its usable build, when every package it reaches has one. */
  ghost predicate Taken(revisions: seq<Revision>, b: Board, c: Closure, base: string, i: nat) {
    && base in c.members && UsableBuild(revisions, b, base) == Some(i) && i < |b.builds|
    && forall d | ReachedFrom(c.graph, {base}, d) :: d in c.members && UsableBuild(revisions, b, d).Some?
  }

  lemma TakenIsPublished(revisions: seq<Revision>, b: Board, c: Closure)
    ensures forall base, i: nat :: Taken(revisions, b, c, base, i) <==>
              base in PublishedBases(revisions, b, c) && Chosen(revisions, b, c)[base] == i
  {
    hide UsableBuild, ReachedFrom;
    var chosen := Chosen(revisions, b, c);
    ChosenExist(revisions, b, c);
    forall base, i: nat
      ensures Taken(revisions, b, c, base, i) <==> base in PublishedBases(revisions, b, c) && chosen[base] == i
    {
      ClosureSetIsExact(c.graph, {base});
      if base in PublishedBases(revisions, b, c) {
        assert ClosureSet(c.graph, {base}) <= chosen.Keys;
      }
    }
  }

  /** Main result about the plan's records: each is of a build on disk to which no other on disk is preferred - of the
      newest approved revision when there is one on disk, and then the one that finished last - and every artifact of
      every build that is taken is in the plan. */
  lemma PlanTakesPreferred(sha: Digest, revisions: seq<Revision>, b: Board, c: Closure)
    requires BoardInv(sha, revisions, b) && PlannedArtifacts(revisions, b, c).Some?
    ensures var planned := PlannedArtifacts(revisions, b, c).value;
            && (forall a <- planned :: exists base, i: nat ::
                  && Taken(revisions, b, c, base, i) && Preferred(revisions, b, base, i)
                  && i < |b.builds| && a in b.builds[i].artifacts)
            && (forall base, i: nat | Taken(revisions, b, c, base, i) ::
                  i < |b.builds| && forall a <- b.builds[i].artifacts :: a in planned)
  {
    hide BoardInv, PlannedArtifacts, UsableBuild, ReachedFrom, Withheld, Chosen, Preferred, Taken;
    PlanIsExact(revisions, b, c);
    ChosenExist(revisions, b, c);
    TakenIsPublished(revisions, b, c);
    var planned, chosen := PlannedArtifacts(revisions, b, c).value, Chosen(revisions, b, c);
    forall a <- planned
      ensures exists base, i: nat ::
          Taken(revisions, b, c, base, i) && Preferred(revisions, b, base, i)
          && i < |b.builds| && a in b.builds[i].artifacts
    {
      var base :| base in PublishedBases(revisions, b, c) && chosen[base] < |b.builds|
          && a in b.builds[chosen[base]].artifacts;
      assert Taken(revisions, b, c, base, chosen[base]);
      TakenIsUsable(revisions, b, c, base, chosen[base]);
      UsableIsPreferred(sha, revisions, b, base);
    }
    forall base, i: nat | Taken(revisions, b, c, base, i)
      ensures i < |b.builds| && forall a <- b.builds[i].artifacts :: a in planned
    {
      TakenIsUsable(revisions, b, c, base, i);
    }
  }

  lemma TakenIsUsable(revisions: seq<Revision>, b: Board, c: Closure, base: string, i: nat)
    requires Taken(revisions, b, c, base, i)
    ensures UsableBuild(revisions, b, base) == Some(i) && i < |b.builds|
  {
  }

  // ---------------------------------------------------------------- no plan

  /** Two different packages that are taken have an artifact of one package name. */
  ghost predicate Clash(revisions: seq<Revision>, b: Board, c: Closure) {
    exists x, y, i: nat, j: nat ::
      && x != y && Taken(revisions, b, c, x, i) && Taken(revisions, b, c, y, j)
      && exists a <- b.builds[i].artifacts, other <- b.builds[j].artifacts :: a.packageName == other.packageName
  }

  lemma {:induction false} CollectedClash(b: Board, chosen: map<string, nat>, bases: seq<string>)
    requires NoRepeats(bases) && forall base <- bases :: base in chosen && chosen[base] < |b.builds|
    requires forall base <- bases :: DistinctNames(b.builds[chosen[base]].artifacts)
    ensures forall a :: a in Collected(b, chosen, bases) <==>
              exists base <- bases :: a in b.builds[chosen[base]].artifacts
    ensures DistinctNames(Collected(b, chosen, bases)) <==>
              forall x <- bases, y <- bases | x != y ::
                forall a <- b.builds[chosen[x]].artifacts, other <- b.builds[chosen[y]].artifacts ::
                  a.packageName != other.packageName
  {
    hide DistinctNames;
    if |bases| > 0 {
      var before, last := bases[..|bases| - 1], bases[|bases| - 1];
      CollectedClash(b, chosen, before);
      assert bases == before + [last] && last !in before;
      JoinedNames(Collected(b, chosen, before), b.builds[chosen[last]].artifacts);
    } else {
      NoNames();
    }
  }

  lemma NoNames()
    ensures DistinctNames([])
  {
  }

  lemma JoinedNames(first: seq<ArtifactRecord>, more: seq<ArtifactRecord>)
    requires DistinctNames(more)
    ensures DistinctNames(first + more) <==>
              DistinctNames(first) && forall a <- first, other <- more :: a.packageName != other.packageName
  {
    var all := first + more;
    if DistinctNames(all) {
      forall i, j | 0 <= i < j < |first| ensures first[i].packageName != first[j].packageName {
        assert all[i] == first[i] && all[j] == first[j];
      }
      forall a <- first, other <- more ensures a.packageName != other.packageName {
        var i :| 0 <= i < |first| && first[i] == a;
        var j :| 0 <= j < |more| && more[j] == other;
        assert all[i] == a && all[|first| + j] == other;
      }
    }
  }

  /** There is no plan exactly when two packages that are taken have an artifact of one package name. */
  lemma NoPlanExactly(sha: Digest, revisions: seq<Revision>, b: Board, c: Closure)
    requires BoardInv(sha, revisions, b)
    ensures PlannedArtifacts(revisions, b, c).None? <==> Clash(revisions, b, c)
  {
    hide BoardInv, PlannedArtifacts, UsableBuild, ReachedFrom, PublishedBases, Chosen, Taken, DistinctNames;
    var chosen := Chosen(revisions, b, c);
    var bases := ListingExists(PublishedBases(revisions, b, c));
    ListingDoesNotMatter(revisions, b, c, bases);
    TakenIsPublished(revisions, b, c);
    forall base ensures base in bases <==> base in PublishedBases(revisions, b, c) {
      assert base in Elements(bases) <==> base in bases;
    }
    forall base <- bases ensures DistinctNames(b.builds[chosen[base]].artifacts) {
      assert Taken(revisions, b, c, base, chosen[base]);
      TakenIsUsable(revisions, b, c, base, chosen[base]);
      UsableHasDistinctNames(sha, revisions, b, base);
    }
    CollectedClash(b, chosen, bases);
    if Clash(revisions, b, c) {
      var x, y, i: nat, j: nat :| x != y && Taken(revisions, b, c, x, i) && Taken(revisions, b, c, y, j)
        && exists a <- b.builds[i].artifacts, other <- b.builds[j].artifacts :: a.packageName == other.packageName;
      assert x in bases && y in bases;
    }
    if !DistinctNames(Collected(b, chosen, bases)) {
      var x, y :| x in bases && y in bases && x != y
        && exists a <- b.builds[chosen[x]].artifacts, other <- b.builds[chosen[y]].artifacts ::
             a.packageName == other.packageName;
      assert Taken(revisions, b, c, x, chosen[x]) && Taken(revisions, b, c, y, chosen[y]);
    }
  }

  lemma UsableHasDistinctNames(sha: Digest, revisions: seq<Revision>, b: Board, base: string)
    requires BoardInv(sha, revisions, b) && UsableBuild(revisions, b, base).Some?
    ensures DistinctNames(b.builds[UsableBuild(revisions, b, base).value].artifacts)
  {
    hide UsableBuild;
    RowOf(sha, revisions, b, UsableBuild(revisions, b, base).value);
  }

  // ---------------------------------------------------------------- what stays on disk

  /** One of the three newest publications lists a file with the digest. */
  ghost predicate RecentlyPublished(publications: seq<Publication>, sha256: string) {
    exists k, a :: 0 <= k < |publications| && |publications| - 3 <= k && a in publications[k].plan.artifacts
                   && a.sha256 == sha256
  }

  /** Which directories a clean-up leaves: of running and uploading builds, of the usable builds of members, and of
      succeeded builds that share a file with one of the three newest publications - and no others. */
  lemma DirectoriesThatStay(revisions: seq<Revision>, b: Board, c: Closure, publications: seq<Publication>)
    ensures var e := Cleaned(revisions, b, c, publications);
            && e == b.(directories := e.directories)
            && (forall id :: id in e.directories <==>
                  && id in b.directories
                  && (|| (exists base <- c.members :: UsableBuild(revisions, b, base) == Some(id))
                      || (id < |b.builds| && b.builds[id].state in {Running, Uploading})
                      || (id < |b.builds| && b.builds[id].state == Succeeded
                          && exists a <- b.builds[id].artifacts :: RecentlyPublished(publications, a.sha256))))
            && (forall id <- e.directories :: e.directories[id] == b.directories[id])
  {
    hide UsableBuild;
    var kept := Kept(revisions, b, c, publications);
    forall sha256 ensures sha256 in Referenced(publications) <==> RecentlyPublished(publications, sha256) {
      RecentDigests(publications, sha256);
    }
    forall id: nat ensures id in kept <==>
        (|| (exists base <- c.members :: UsableBuild(revisions, b, base) == Some(id))
         || (id < |b.builds| && b.builds[id].state == Succeeded
             && exists a <- b.builds[id].artifacts :: RecentlyPublished(publications, a.sha256)))
    {
      if base :| base in c.members && UsableBuild(revisions, b, base) == Some(id) {
        assert base in Chosen(revisions, b, c);
      }
    }
    CleanUpDecides(b, kept);
  }

  lemma RecentDigests(publications: seq<Publication>, sha256: string)
    ensures sha256 in Referenced(publications) <==> RecentlyPublished(publications, sha256)
  {
    var recent := Recent(publications);
    if sha256 in Referenced(publications) {
      var p, a :| p in recent && a in p.plan.artifacts && a.sha256 == sha256;
      var i :| 0 <= i < |recent| && recent[i] == p;
      assert publications[|publications| - |recent| + i] == p;
    }
    if RecentlyPublished(publications, sha256) {
      var k, a :| 0 <= k < |publications| && |publications| - 3 <= k && a in publications[k].plan.artifacts
                  && a.sha256 == sha256;
      assert publications[k] == recent[k - (|publications| - |recent|)];
    }
  }
}
