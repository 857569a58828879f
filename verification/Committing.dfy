/** What a release's commit finds in place. The signer's own checks decide it: nothing is assumed of what is published
    already, nor that a file name stands for one content. */
module Committing {
  import opened Protocol
  import opened Repository
  import opened CrashSafety
  import opened Convergence
  import Signer

  /** The package is in place with these bytes, under a valid signature. */
  ghost predicate InPlaceAs(d: Disk, file: string, content: PackageFile) {
    file in d.hot && file in d.signatures && d.hot[file] == content && d.signatures[file] == content
  }

  /** Every planned package is in place with the recorded size and digest, under a valid signature. */
  ghost predicate AllInPlace(d: Disk, id: PlanId) {
    forall a <- id.plan.artifacts :: a.file in d.hot && Matches(d.hot[a.file], a) && Verified(d, a.file)
  }

  /** The release directory is complete, and everything its manifest lists is in place. */
  ghost predicate Whole(d: Disk, id: PlanId) {
    && id in d.releases && d.releases[id] == ReleaseFor(d.keyring, id)
    && AllInPlace(d, id) && InPlaceAs(d, d.keyring.record.file, d.keyring.file)
  }

  /** A whole release is a served one, given a keyring package that is what its record says. */
  lemma WholeIsServed(d: Disk, id: PlanId)
    requires Whole(d, id) && Matches(d.keyring.file, d.keyring.record)
    ensures Served(d, id)
  {
  }

  /** No planned package bears the keyring's file name. */
  predicate KeyringApart(d: Disk, id: PlanId) {
    forall a <- id.plan.artifacts :: a.file != d.keyring.record.file
  }

  // ---------------------------------------------------------------- what this one plan stages

  predicate DeliveredAs(d: Disk, id: PlanId, file: string) {
    exists a <- id.plan.artifacts :: a.file == file && Delivered(d, id, a)
  }

  /** What each name stands for in this one publish: the keyring, what the inbox delivers, what is published. */
  function LocalBook(d: Disk, id: PlanId): Book {
    file =>
      if file == d.keyring.record.file then d.keyring.file
      else if DeliveredAs(d, id, file) then d.inbox[id].files[file]
      else if file in d.hot then d.hot[file]
      else d.keyring.file
  }

  lemma LocalNames(d: Disk, id: PlanId)
    requires ReadablePlan(d, id) && CollectScript(d, id, id.plan.artifacts).ok && KeyringApart(d, id)
    ensures NamesFixed(LocalBook(d, id), d, id)
    ensures forall a <- id.plan.artifacts | !Reusable(d, a) ::
              Delivered(d, id, a) && LocalBook(d, id)(a.file) == d.inbox[id].files[a.file]
  {
    forall a <- id.plan.artifacts
      ensures Delivered(d, id, a) ==> LocalBook(d, id)(a.file) == d.inbox[id].files[a.file]
      ensures Matches(LocalBook(d, id)(a.file), a) && (!Reusable(d, a) ==> Delivered(d, id, a))
    {
      if !Reusable(d, a) { CollectedIsDelivered(d, id, id.plan.artifacts, a); }
      if Delivered(d, id, a) {
        assert DeliveredAs(d, id, a.file);
      } else if DeliveredAs(d, id, a.file) {
        var b :| b in id.plan.artifacts && b.file == a.file && Delivered(d, id, b);
        SameFileSameRecord(id.plan.artifacts, a, b);
        assert false;
      }
    }
  }

  lemma SameFileSameRecord(artifacts: seq<ArtifactRecord>, a: ArtifactRecord, b: ArtifactRecord)
    requires DistinctFiles(artifacts) && a in artifacts && b in artifacts && a.file == b.file
    ensures a == b
  {
  }

  /** The staging directory of this plan holds what its names stand for. */
  ghost predicate StagedRight(book: Book, d: Disk, id: PlanId) {
    id in d.staging ==> ByBook(book, d.staging[id].packages) && ByBook(book, d.staging[id].signatures)
  }

  lemma {:induction false} StagesRight(book: Book, d: Disk, id: PlanId, steps: seq<Step>)
    requires StagedRight(book, d, id) && forall s <- steps :: Preparing(book, id, s)
    ensures StagedRight(book, Run(d, steps), id)
  {
    hide Apply;
    if |steps| > 0 {
      StagesRight(book, d, id, steps[..|steps| - 1]);
      StepStagesRight(book, Run(d, steps[..|steps| - 1]), id, steps[|steps| - 1]);
    }
  }

  lemma StepStagesRight(book: Book, d: Disk, id: PlanId, s: Step)
    requires StagedRight(book, d, id) && Preparing(book, id, s)
    ensures StagedRight(book, Apply(d, s), id)
  {
  }

  /** Staged, indexed and sealed, with nothing moved yet. */
  ghost predicate Ready(book: Book, d: Disk, e: Disk, id: PlanId) {
    && e == d.(staging := e.staging) && Staged(e, id, FilesToMove(d, id)) && StagedRight(book, e, id)
    && e.staging[id].release == ReleaseFor(d.keyring, id)
  }

  function Staging(d: Disk, id: PlanId): seq<Step> {
    GatherScript(d, id).steps + IndexAndSeal(d, id)
  }

  lemma StagingIsReady(d: Disk, id: PlanId)
    requires ReadablePlan(d, id) && PrepareScript(d, id).ok && KeyringApart(d, id)
    ensures Executable(d, Staging(d, id)) && Ready(LocalBook(d, id), d, Run(d, Staging(d, id)), id)
    ensures PrepareScript(d, id).steps == Staging(d, id) + MoveSteps(id, FilesToMove(d, id))
    ensures NoRepeats(FilesToMove(d, id))
  {
    hide Apply, Run, LocalBook, ReleaseFor, FilesToMove, Executable, CollectScript, Staged;
    PrepareShape(d, id);
    var gather, seal := GatherScript(d, id).steps, IndexAndSeal(d, id);
    GatherStages(d, id);
    Signer.CollectStays(d, id, id.plan.artifacts);
    Signer.StagingOnlyRun(d, gather);
    SealCompletes(Run(d, gather), id, FilesToMove(d, id));
    assert IndexAndSeal(Run(d, gather), id) == seal;
    RunAppend(d, gather, seal);
    ExecutableAppend(d, gather, seal);
    Signer.StagingOnlyRun(d, gather + seal);
    StagedByNames(d, id);
    DistinctMoves(d, id);
  }

  lemma DistinctMoves(d: Disk, id: PlanId)
    requires ReadablePlan(d, id) && KeyringApart(d, id)
    ensures NoRepeats(FilesToMove(d, id))
  {
    NewFilesDistinct(d, id.plan.artifacts);
    if d.keyring.record.file in NewFiles(d, id.plan.artifacts) {
      var a := NewComesFromPlan(d, id.plan.artifacts, d.keyring.record.file);
      assert false;
    }
  }

  lemma StagedByNames(d: Disk, id: PlanId)
    requires ReadablePlan(d, id) && PrepareScript(d, id).ok && KeyringApart(d, id)
    ensures StagedRight(LocalBook(d, id), Run(d, Staging(d, id)), id)
  {
    hide Apply, Run, CollectScript, KeyringScript;
    var book := LocalBook(d, id);
    PrepareShape(d, id);
    LocalNames(d, id);
    CollectPrepares(book, d, id, id.plan.artifacts);
    OpenMakes(d, id);
    var open := OpenSteps(d, id);
    var rest := CollectScript(d, id, id.plan.artifacts).steps + KeyringScript(d, id).steps + IndexAndSeal(d, id);
    assert Staging(d, id) == open + rest;
    RunAppend(d, open, rest);
    KeyringPrepares(book, d, id);
    StagesRight(book, Run(d, open), id, rest);
  }

  lemma KeyringPrepares(book: Book, d: Disk, id: PlanId)
    requires book(d.keyring.record.file) == d.keyring.file
    ensures forall s <- KeyringScript(d, id).steps + IndexAndSeal(d, id) :: Preparing(book, id, s)
  {
  }

  // ---------------------------------------------------------------- the moves

  /** What moving these files does to the published ones. */
  ghost predicate Moved(book: Book, d: Disk, e: Disk, files: seq<string>) {
    && (forall file <- files :: InPlaceAs(e, file, book(file)))
    && (forall file | file !in files ::
          (file in e.hot <==> file in d.hot) && (file in d.hot ==> e.hot[file] == d.hot[file]))
    && (forall file | file !in files ::
          (file in e.signatures <==> file in d.signatures)
          && (file in d.signatures ==> e.signatures[file] == d.signatures[file]))
  }

  lemma {:induction false} MovesBring(book: Book, d: Disk, id: PlanId, files: seq<string>, more: seq<string>)
    requires Staged(d, id, files + more) && NoRepeats(files + more) && StagedRight(book, d, id)
    ensures var e := Run(d, MoveSteps(id, files));
            && Staged(e, id, more) && StagedRight(book, e, id) && Moved(book, d, e, files)
            && e == d.(hot := e.hot, signatures := e.signatures, staging := e.staging)
  {
    hide Apply, Moved, StagedRight;
    if |files| == 0 {
      assert files + more == more;
      NothingMoved(book, d);
    } else {
      hide Staged, NoRepeats, Run;
      var before, file := files[..|files| - 1], files[|files| - 1];
      assert files + more == before + ([file] + more);
      MovesBring(book, d, id, before, [file] + more);
      FileApart(before, file, more);
      var steps, pair := MoveSteps(id, before), [MovePackage(id, file), MoveSignature(id, file)];
      RunAppend(d, steps, pair);
      assert MoveSteps(id, files) == steps + pair && files == before + [file];
      MovedPush(book, d, Run(d, steps), id, before, file, more);
    }
  }

  lemma NothingMoved(book: Book, d: Disk)
    ensures Moved(book, d, d, [])
  {
  }

  lemma FileApart(before: seq<string>, file: string, more: seq<string>)
    requires NoRepeats(before + ([file] + more))
    ensures file !in before && file !in more
  {
    var all := before + ([file] + more);
    forall i | 0 <= i < |more| ensures more[i] != file { assert all[|before|] != all[|before| + 1 + i]; }
    forall i | 0 <= i < |before| ensures before[i] != file { assert all[i] != all[|before|]; }
  }

  lemma MovedPush(book: Book, d: Disk, mid: Disk, id: PlanId, before: seq<string>, file: string, more: seq<string>)
    requires Moved(book, d, mid, before) && Staged(mid, id, [file] + more) && StagedRight(book, mid, id)
    requires file !in before && file !in more
    ensures var e := Run(mid, [MovePackage(id, file), MoveSignature(id, file)]);
            && Staged(e, id, more) && StagedRight(book, e, id) && Moved(book, d, e, before + [file])
            && e == mid.(hot := e.hot, signatures := e.signatures, staging := e.staging)
  {
    hide Apply, Run, Moved;
    MovePair(mid, id, file, more);
    MovesRest(mid, id, file);
    assert file in [file] + more;
    var e := Run(mid, [MovePackage(id, file), MoveSignature(id, file)]);
    OneMoreMoved(book, d, mid, e, before, file);
  }

  lemma OneMoreMoved(book: Book, d: Disk, mid: Disk, e: Disk, before: seq<string>, file: string)
    requires Moved(book, d, mid, before) && file !in before
    requires e.hot == mid.hot[file := book(file)] && e.signatures == mid.signatures[file := book(file)]
    ensures Moved(book, d, e, before + [file])
  {
  }

  lemma MovesRest(d: Disk, id: PlanId, file: string)
    ensures var e := Run(d, [MovePackage(id, file), MoveSignature(id, file)]);
            e == d.(hot := e.hot, signatures := e.signatures, staging := e.staging)
  {
    var pair := [MovePackage(id, file), MoveSignature(id, file)];
    assert pair[..1] == [pair[0]] && pair[..1][..0] == [];
    var mid := Apply(d, pair[0]);
    assert Run(d, pair[..1]) == mid;
    assert Run(d, pair) == Apply(mid, pair[1]);
  }

  // ---------------------------------------------------------------- the commit

  /** The whole preparation: staging, then the moves. */
  lemma PreparedIsMoved(d: Disk, id: PlanId)
    requires ReadablePlan(d, id) && PrepareScript(d, id).ok && KeyringApart(d, id)
    ensures var mid, e := Run(d, Staging(d, id)), Run(d, PrepareScript(d, id).steps);
            && Executable(d, PrepareScript(d, id).steps)
            && mid == d.(staging := mid.staging) && Moved(LocalBook(d, id), mid, e, FilesToMove(d, id))
            && e == mid.(hot := e.hot, signatures := e.signatures, staging := e.staging)
            && id in e.staging && e.staging[id].release == ReleaseFor(d.keyring, id)
  {
    hide Apply, Run, LocalBook, ReleaseFor, Executable, CollectScript, PrepareScript, Staging, FilesToMove, Moved,
        MoveSteps, NoRepeats, StagedRight;
    StagingIsReady(d, id);
    var mid, files := Run(d, Staging(d, id)), FilesToMove(d, id);
    assert files + [] == files;
    MovesBring(LocalBook(d, id), mid, id, files, []);
    MovesDeliver(mid, id, files, []);
    RunAppend(d, Staging(d, id), MoveSteps(id, files));
    ExecutableAppend(d, Staging(d, id), MoveSteps(id, files));
  }

  /** A preparation that succeeds ends with every planned package, and the keyring, in place: recorded size and digest,
      valid signature, release complete. */
  lemma PreparedIsInPlace(d: Disk, id: PlanId)
    requires ReadablePlan(d, id) && PrepareScript(d, id).ok && KeyringApart(d, id)
    ensures var e := Run(d, PrepareScript(d, id).steps);
            && Executable(d, PrepareScript(d, id).steps)
            && AllInPlace(e, id) && InPlaceAs(e, d.keyring.record.file, d.keyring.file)
            && id in e.staging && e.staging[id].release == ReleaseFor(d.keyring, id)
            && e.keyring == d.keyring && e.releases == d.releases && e.links == d.links
  {
    hide Run, LocalBook, ReleaseFor, Executable, PrepareScript, Staging, FilesToMove, Moved, AllInPlace, InPlaceAs;
    PreparedIsMoved(d, id);
    MovedAreInPlace(d, Run(d, Staging(d, id)), Run(d, PrepareScript(d, id).steps), id);
  }

  lemma MovedAreInPlace(d: Disk, mid: Disk, e: Disk, id: PlanId)
    requires ReadablePlan(d, id) && PrepareScript(d, id).ok && KeyringApart(d, id)
    requires mid.hot == d.hot && mid.signatures == d.signatures && Moved(LocalBook(d, id), mid, e, FilesToMove(d, id))
    ensures AllInPlace(e, id) && InPlaceAs(e, d.keyring.record.file, d.keyring.file)
  {
    hide Run, CollectScript;
    PrepareShape(d, id);
    LocalNames(d, id);
    var files := FilesToMove(d, id);
    forall a <- id.plan.artifacts ensures a.file in e.hot && Matches(e.hot[a.file], a) && Verified(e, a.file) {
      if Reusable(d, a) {
        ReusedIsVerified(d, id, id.plan.artifacts, a);
        ReusedIsNotMoved(d, id, a);
      } else {
        NewOrReusable(d, id.plan.artifacts, a);
        assert a.file in files;
      }
    }
    KeyringInPlace(d, mid, e, id);
  }

  lemma {:induction false} ReusedIsVerified(d: Disk, id: PlanId, artifacts: seq<ArtifactRecord>, a: ArtifactRecord)
    requires CollectScript(d, id, artifacts).ok && a in artifacts && Reusable(d, a)
    ensures Verified(d, a.file)
  {
    if a != artifacts[|artifacts| - 1] { ReusedIsVerified(d, id, artifacts[..|artifacts| - 1], a); }
  }

  lemma ReusedIsNotMoved(d: Disk, id: PlanId, a: ArtifactRecord)
    requires ReadablePlan(d, id) && a in id.plan.artifacts && Reusable(d, a) && KeyringApart(d, id)
    ensures a.file !in FilesToMove(d, id)
  {
    if a.file in NewFiles(d, id.plan.artifacts) {
      var b := NewComesFromPlan(d, id.plan.artifacts, a.file);
      SameFileSameRecord(id.plan.artifacts, a, b);
      assert false;
    }
  }

  lemma KeyringInPlace(d: Disk, mid: Disk, e: Disk, id: PlanId)
    requires PrepareScript(d, id).ok && KeyringApart(d, id)
    requires mid.hot == d.hot && mid.signatures == d.signatures && Moved(LocalBook(d, id), mid, e, FilesToMove(d, id))
    ensures InPlaceAs(e, d.keyring.record.file, d.keyring.file)
  {
    hide CollectScript;
    var file := d.keyring.record.file;
    PrepareShape(d, id);
    if KeyringFound(d) {
      if file in NewFiles(d, id.plan.artifacts) {
        var a := NewComesFromPlan(d, id.plan.artifacts, file);
        assert false;
      }
    } else {
      assert file in FilesToMove(d, id);
    }
  }

  /** Main result: whatever is published already and whatever the inbox holds under known names, the rename that commits
      a release serves it whole. */
  lemma CommitIsWhole(d: Disk, id: PlanId)
    requires ReadablePlan(d, id) && PrepareScript(d, id).ok && Vacant(d, id) && KeyringApart(d, id)
    ensures var steps := PrepareScript(d, id).steps + [Commit(id)];
            Executable(d, steps) && Whole(Run(d, steps), id)
  {
    hide Run, ReleaseFor, Executable, PrepareScript;
    PreparedIsInPlace(d, id);
    var steps := PrepareScript(d, id).steps;
    var mid := Run(d, steps);
    RunOne(mid, Commit(id));
    RunAppend(d, steps, [Commit(id)]);
    ExecutableAppend(d, steps, [Commit(id)]);
  }

  // ---------------------------------------------------------------- which runs commit

  lemma PrepareCommitsNothing(d: Disk, id: PlanId, k: nat)
    requires k <= |PrepareScript(d, id).steps|
    ensures Run(d, PrepareScript(d, id).steps[..k]).releases == d.releases
  {
    hide Apply, Run, RepoAdd, CollectScript, MoveSteps, ExpectedEntries, AllPaths, KeyringFound, FilesToMove;
    Signer.CollectStays(d, id, id.plan.artifacts);
    Signer.MovesStay(id, FilesToMove(d, id));
    Signer.NoRemovalRun(d, PrepareScript(d, id).steps[..k]);
  }

  /** A cut run that leaves a release committed that was not, got past the commit; there it was whole. */
  lemma CommittedWasWhole(d: Disk, id: PlanId, order: ScanOrder, k: nat) returns (j: nat)
    requires k <= |PublishSteps(d, id, order)| && KeyringApart(d, id)
    requires !Committed(d, id) && Committed(Run(d, PublishSteps(d, id, order)[..k]), id)
    ensures j <= k && Whole(Run(d, PublishSteps(d, id, order)[..j]), id)
  {
    hide Apply, Run, PrepareScript, ActivateScript, PruneScript, Whole;
    var steps, prepare := PublishSteps(d, id, order), PrepareScript(d, id).steps;
    if !ReadablePlan(d, id) {
      assert steps[..k] == [];
      Signer.RunEmpty(d);
      assert false;
    }
    assert prepare <= steps;
    if k <= |prepare| {
      assert steps[..k] == prepare[..k];
      PrepareCommitsNothing(d, id, k);
      assert false;
    }
    assert PrepareScript(d, id).ok && Vacant(d, id);
    j := |prepare| + 1;
    assert steps[..j] == prepare + [Commit(id)];
    CommitIsWhole(d, id);
  }

  // ---------------------------------------------------------------- when a publish succeeds

  /** Exactly when the signer succeeds with a plan that is not committed yet: it can be prepared, and nothing is in the
      place of its release. Once the commit is reached, nothing can fail. */
  lemma FreshSucceedsExactly(d: Disk, id: PlanId)
    requires ReadablePlan(d, id) && !Committed(d, id) && KeyringApart(d, id)
    requires Matches(d.keyring.file, d.keyring.record)
    ensures PublishScript(d, id).ok <==> PrepareScript(d, id).ok && Vacant(d, id)
  {
    hide Run, PrepareScript, Whole, Served, Activatable;
    if PrepareScript(d, id).ok && Vacant(d, id) { CommitMayActivate(d, id); }
  }

  lemma CommitMayActivate(d: Disk, id: PlanId)
    requires ReadablePlan(d, id) && PrepareScript(d, id).ok && Vacant(d, id) && KeyringApart(d, id)
    requires Matches(d.keyring.file, d.keyring.record)
    ensures var mid := Run(d, PrepareScript(d, id).steps + [Commit(id)]); Served(mid, id) && Activatable(mid, id)
  {
    hide Run, PrepareScript, Whole, Served, Activatable;
    var steps := PrepareScript(d, id).steps + [Commit(id)];
    CommitIsWhole(d, id);
    KeyringAndInboxStay(d, steps);
    WholeIsServed(Run(d, steps), id);
    ServedIsActivatable(Run(d, steps), id);
  }

  /** The signer finds the package: published under a valid signature, or delivered. */
  predicate Supplied(d: Disk, id: PlanId, a: ArtifactRecord) {
    var published := a.file in d.hot && a.file in d.signatures
        && d.hot[a.file].size == a.size && d.hot[a.file].sha256 == a.sha256;
    if published then d.signatures[a.file] == d.hot[a.file] && SaysOfItself(d.hot[a.file], a)
    else
      && id in d.inbox && a.file in d.inbox[id].files
      && var content := d.inbox[id].files[a.file];
         content.size == a.size && content.sha256 == a.sha256 && SaysOfItself(content, a)
  }

  /** The package's own metadata is what its record says. */
  predicate SaysOfItself(content: PackageFile, a: ArtifactRecord) {
    && content.info.Some? && content.info.value.name == a.packageName
    && content.info.value.version == a.packageVersion && content.info.value.architecture == a.architecture
  }

  lemma {:induction false} CollectSupplied(d: Disk, id: PlanId, artifacts: seq<ArtifactRecord>)
    requires forall a <- artifacts :: Supplied(d, id, a)
    ensures CollectScript(d, id, artifacts).ok
    ensures RepoAdd(PackagePaths(d, id, artifacts)) == Some(PlannedEntries(artifacts))
  {
    if |artifacts| > 0 {
      var before, a := artifacts[..|artifacts| - 1], artifacts[|artifacts| - 1];
      CollectSupplied(d, id, before);
      var paths := PackagePaths(d, id, artifacts);
      assert Supplied(d, id, a);
      var content := if Reusable(d, a) then d.hot[a.file] else d.inbox[id].files[a.file];
      assert paths == PackagePaths(d, id, before) + [(a.file, content)];
      assert paths[..|paths| - 1] == PackagePaths(d, id, before);
    }
  }

  /** A plan whose packages the signer finds can be prepared. */
  lemma SuppliedIsPrepared(d: Disk, id: PlanId)
    requires KeyringSound(d.keyring) && (KeyringFound(d) ==> Verified(d, d.keyring.record.file))
    requires forall a <- id.plan.artifacts :: Supplied(d, id, a)
    ensures PrepareScript(d, id).ok
  {
    hide CollectScript, PackagePaths, KeyringFound, Supplied;
    CollectSupplied(d, id, id.plan.artifacts);
    assert GatherScript(d, id).ok;
    var paths := AllPaths(d, id);
    assert paths[..|paths| - 1] == PackagePaths(d, id, id.plan.artifacts);
  }

  // ---------------------------------------------------------------- what a success leaves

  /** A success leaves its release served, whatever names stand for: it was whole when it was committed, or it was
      served before. */
  lemma SuccessServes(d: Disk, t: Signer.Turn)
    requires Signer.Allowed(d, t) && t.answer == Signer.Success
    requires if Committed(d, t.id) then Served(d, t.id)
             else KeyringApart(d, t.id) && Matches(d.keyring.file, d.keyring.record)
    ensures Served(Signer.AfterTurn(d, t), t.id)
  {
    hide Apply, Run, PublishScript, PruneScript, Served, Thinned, Switched, KeptReleases;
    var script, steps := PublishScript(d, t.id).steps, PublishSteps(d, t.id, t.order);
    var mid := Run(d, script);
    ScriptServes(d, t.id);
    Signer.ScriptSwitches(d, t.id);
    var k := if t.cut <= |steps| then t.cut else |steps|;
    assert steps[..|steps|] == steps;
    var more := steps[|script|..k];
    assert steps[..k] == script + more;
    RunAppend(d, script, more);
    PruneDiscards(mid, t.order);
    assert forall s <- more :: s in PruneScript(mid, t.order).steps;
    DiscardingRunThins(mid, more);
    SwitchedKeeps(d, mid, t.id);
    ThinningKeepsServed(mid, Run(mid, more), t.id);
  }

  lemma ScriptServes(d: Disk, id: PlanId)
    requires PublishScript(d, id).ok
    requires if Committed(d, id) then Served(d, id)
             else KeyringApart(d, id) && Matches(d.keyring.file, d.keyring.record)
    ensures Served(Run(d, PublishScript(d, id).steps), id)
  {
    hide Apply, Run, PrepareScript, Served, Activatable, LinkSteps, Targets, Switched;
    if Committed(d, id) {
      ActivatedLinks(d, id);
      ServedSame(d, Run(d, PublishScript(d, id).steps), id);
    } else {
      var committed := PrepareScript(d, id).steps + [Commit(id)];
      var mid := Run(d, committed);
      CommitMayActivate(d, id);
      ActivatedLinks(mid, id);
      RunAppend(d, committed, ActivateScript(mid, id).steps);
      ServedSame(mid, Run(d, PublishScript(d, id).steps), id);
    }
  }

  // ---------------------------------------------------------------- which plans are published

  /** The plan's own fields are in order: format 1, every file has a size, no file or package twice, and none of the
      packages is the keyring's. */
  ghost predicate Acceptable(plan: PublishPlan) {
    && plan.format == 1
    && (forall i :: 0 <= i < |plan.artifacts| ==>
          plan.artifacts[i].size >= 1 && plan.artifacts[i].packageName != "aursmith-keyring")
    && forall i, j :: 0 <= i < j < |plan.artifacts| ==>
         && plan.artifacts[i].file != plan.artifacts[j].file
         && plan.artifacts[i].packageName != plan.artifacts[j].packageName
  }

  lemma ValidIsAcceptable(plan: PublishPlan)
    ensures ValidPlan(plan) <==> Acceptable(plan)
  {
    if Acceptable(plan) {
      forall a <- plan.artifacts ensures a.size > 0 && a.packageName != KEYRING_NAME {
        var i :| 0 <= i < |plan.artifacts| && plan.artifacts[i] == a;
      }
    }
    if ValidPlan(plan) {
      forall i | 0 <= i < |plan.artifacts|
        ensures plan.artifacts[i].size >= 1 && plan.artifacts[i].packageName != "aursmith-keyring"
      {
        assert plan.artifacts[i] in plan.artifacts;
      }
    }
  }

  /** Main result on what is accepted: handed over with every package supplied, on an empty place and beside a sound
      keyring, a plan is published exactly when its fields are in order. */
  lemma AcceptedExactly(d: Disk, id: PlanId)
    requires id in d.inbox && d.inbox[id].plan == Some(id.plan) && !Committed(d, id) && Vacant(d, id)
    requires KeyringSound(d.keyring) && KeyringApart(d, id)
    requires KeyringFound(d) ==> Verified(d, d.keyring.record.file)
    requires forall a <- id.plan.artifacts :: Supplied(d, id, a)
    ensures PublishScript(d, id).ok <==> Acceptable(id.plan)
  {
    hide PrepareScript, ValidPlan, Acceptable, Supplied, KeyringFound;
    ValidIsAcceptable(id.plan);
    if Acceptable(id.plan) {
      SuppliedIsPrepared(d, id);
      FreshSucceedsExactly(d, id);
    }
  }

  /** Whatever is published was handed over under its digest, with fields in order; and each of its packages is
      published already, at the recorded size and digest under a valid signature, or the inbox has it at that size and
      digest and it says of itself what the record says. */
  lemma PublishedIsAcceptable(d: Disk, id: PlanId)
    requires PublishScript(d, id).ok
    ensures id in d.inbox && d.inbox[id].plan == Some(id.plan) && Acceptable(id.plan)
    ensures !Committed(d, id) ==> forall a <- id.plan.artifacts ::
              || (a.file in d.hot && a.file in d.signatures && d.hot[a.file].size == a.size
                  && d.hot[a.file].sha256 == a.sha256 && d.signatures[a.file] == d.hot[a.file])
              || (a.file in d.inbox[id].files
                  && var content := d.inbox[id].files[a.file];
                     && content.size == a.size && content.sha256 == a.sha256
                     && content.info == Some(PackageInfo(a.packageName, a.packageVersion, a.architecture)))
  {
    hide Run, ActivateScript, CollectScript, ValidPlan, Acceptable;
    ValidIsAcceptable(id.plan);
    if !Committed(d, id) {
      assert PrepareScript(d, id).ok;
      PrepareShape(d, id);
      forall a <- id.plan.artifacts ensures (Reusable(d, a) && Verified(d, a.file)) || Delivered(d, id, a) {
        if Reusable(d, a) {
          ReusedIsVerified(d, id, id.plan.artifacts, a);
        } else {
          CollectedIsDelivered(d, id, id.plan.artifacts, a);
        }
      }
    }
  }

  /** What activation asks for before it touches a link, file by file. */
  lemma ActivationChecks(d: Disk, id: PlanId)
    ensures ActivateScript(d, id).ok <==>
              && id in d.releases
              && var r := d.releases[id];
                 && (forall f :: f in r)
                 && r[Manifest].ManifestText? && r[ManifestSig] == SignatureOf(r[Manifest])
                 && r[DatabaseSig] == SignatureOf(r[Database]) && r[FilesDatabaseSig] == SignatureOf(r[FilesDatabase])
                 && var m := r[Manifest].manifest;
                    && m.planId == id && m.database == r[Database] && m.filesDatabase == r[FilesDatabase]
                    && (forall a | a in m.artifacts || a == m.keyring ::
                          && a.file in d.hot && a.file in d.signatures && d.hot[a.file].size == a.size
                          && d.signatures[a.file] == d.hot[a.file])
  {
    hide LinkSteps;
    if id in d.releases {
      var r := d.releases[id];
      if forall f :: f in r {
        forall a ensures r[Manifest].ManifestText? ==>
            (a in r[Manifest].manifest.artifacts + [r[Manifest].manifest.keyring] <==>
             a in r[Manifest].manifest.artifacts || a == r[Manifest].manifest.keyring) {}
      }
      if Activatable(d, id) {
        forall f ensures f in r { AllReleaseFile(r, f); }
      }
    }
  }

  lemma AllReleaseFile(r: ReleaseDirectory, f: ReleaseFile)
    requires Database in r && DatabaseSig in r && FilesDatabase in r && FilesDatabaseSig in r && Manifest in r
        && ManifestSig in r
    ensures f in r
  {
    match f case Database => case DatabaseSig => case FilesDatabase => case FilesDatabaseSig => case Manifest =>
      case ManifestSig =>
  }

  /** What the databases of a release list: each planned package under its name with its version and file, the keyring
      package, and nothing else. */
  lemma ReleaseLists(keyring: Keyring, id: PlanId)
    requires Acceptable(id.plan)
    ensures var r := ReleaseFor(keyring, id);
            && r[Database].PackageList? && r[FilesDatabase] == r[Database]
            && r[Manifest] == ManifestText(PublishManifest(id, id.plan.artifacts, keyring.record, r[Database],
                 r[FilesDatabase]))
            && r[DatabaseSig] == SignatureOf(r[Database]) && r[FilesDatabaseSig] == SignatureOf(r[FilesDatabase])
            && r[ManifestSig] == SignatureOf(r[Manifest])
    ensures var entries := ReleaseFor(keyring, id)[Database].entries;
            && (forall a <- id.plan.artifacts ::
                  a.packageName in entries && entries[a.packageName] == (a.packageVersion, a.file))
            && "aursmith-keyring" in entries
            && entries["aursmith-keyring"] == (keyring.record.packageVersion, keyring.record.file)
            && (forall name <- entries ::
                  name == "aursmith-keyring" || exists a <- id.plan.artifacts :: a.packageName == name)
  {
    EntriesOf(id.plan.artifacts);
  }

  lemma {:induction false} EntriesOf(artifacts: seq<ArtifactRecord>)
    requires forall i, j :: 0 <= i < j < |artifacts| ==> artifacts[i].packageName != artifacts[j].packageName
    ensures var entries := PlannedEntries(artifacts);
            && (forall a <- artifacts ::
                  a.packageName in entries && entries[a.packageName] == (a.packageVersion, a.file))
            && (forall name <- entries :: exists a <- artifacts :: a.packageName == name)
  {
    if |artifacts| > 0 {
      var before, last := artifacts[..|artifacts| - 1], artifacts[|artifacts| - 1];
      EntriesOf(before);
      assert artifacts == before + [last];
      forall a <- before ensures a.packageName != last.packageName {
        var i :| 0 <= i < |before| && before[i] == a;
        assert artifacts[i] == a;
      }
    }
  }
}
