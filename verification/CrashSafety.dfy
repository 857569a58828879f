/** Whatever call a crash interrupts, the repository that clients see stays complete. */
module CrashSafety {
  import opened Protocol
  import opened Repository

  // ---------------------------------------------------------------- invariant

  /** The hypothesis "a file name determines its content", as a book that says what each name stands for. */
  type Book = string -> PackageFile

  ghost predicate ByBook(book: Book, files: map<string, PackageFile>) {
    forall file <- files :: files[file] == book(file)
  }

  ghost predicate StagedByBook(book: Book, d: Disk) {
    forall id <- d.staging :: ByBook(book, d.staging[id].packages) && ByBook(book, d.staging[id].signatures)
  }

  ghost predicate PlanByBook(book: Book, plan: PublishPlan) {
    forall a <- plan.artifacts :: Matches(book(a.file), a)
  }

  /** The inbox of a plan delivers, under each planned name and digest, the content of that name. */
  ghost predicate NamesFixed(book: Book, d: Disk, id: PlanId) {
    && PlanByBook(book, id.plan)
    && (forall a <- id.plan.artifacts :: Delivered(d, id, a) ==> d.inbox[id].files[a.file] == book(a.file))
  }

  ghost predicate KeyringByBook(book: Book, keyring: Keyring) {
    book(keyring.record.file) == keyring.file && KeyringSound(keyring)
  }

  /** The keyring package is what its record says. */
  predicate KeyringSound(keyring: Keyring) {
    && Matches(keyring.file, keyring.record)
    && keyring.record.packageName == KEYRING_NAME
    && keyring.file.info == Some(PackageInfo(KEYRING_NAME, keyring.record.packageVersion, keyring.record.architecture))
  }

  /** The six files a complete release of a plan consists of. */
  function ReleaseFor(keyring: Keyring, id: PlanId): ReleaseDirectory {
    var database := PackageList(ExpectedEntries(id.plan.artifacts, keyring.record));
    var manifest := ManifestText(PublishManifest(id, id.plan.artifacts, keyring.record, database, database));
    map[Database := database, DatabaseSig := SignatureOf(database),
        FilesDatabase := database, FilesDatabaseSig := SignatureOf(database),
        Manifest := manifest, ManifestSig := SignatureOf(manifest)]
  }

  /** A client that follows a link to the release finds all of it: the six files, and every listed package
      with the planned bytes and a valid signature. */
  ghost predicate Served(d: Disk, id: PlanId) {
    && id in d.releases && d.releases[id] == ReleaseFor(d.keyring, id)
    && forall a <- id.plan.artifacts + [d.keyring.record] ::
         a.file in d.hot && Matches(d.hot[a.file], a) && Verified(d, a.file)
  }

  /** What clients rely on. */
  ghost predicate Safe(d: Disk) {
    forall link <- d.links :: Served(d, d.links[link])
  }

  /** A release directory holds nothing but files of the release it is named after. */
  ghost predicate Genuine(d: Disk, id: PlanId)
    requires id in d.releases
  {
    forall f <- d.releases[id] :: f in ReleaseFor(d.keyring, id) && d.releases[id][f] == ReleaseFor(d.keyring, id)[f]
  }

  ghost predicate Inv(d: Disk, book: Book) {
    && KeyringByBook(book, d.keyring)
    && ByBook(book, d.hot) && ByBook(book, d.signatures)
    && StagedByBook(book, d)
    && (forall id <- d.releases :: PlanByBook(book, id.plan) && Genuine(d, id))
    && Safe(d)
  }

  // ---------------------------------------------------------------- running lists of steps

  lemma {:induction false} RunAppend(d: Disk, a: seq<Step>, b: seq<Step>)
    ensures Run(d, a + b) == Run(Run(d, a), b)
  {
    if |b| == 0 {
      assert a + b == a;
    } else {
      var n := |b| - 1;
      assert (a + b)[..|a + b| - 1] == a + b[..n];
      RunAppend(d, a, b[..n]);
    }
  }

  /** A cut of a two-part run falls in the first part or in the second. */
  lemma CutRun(d: Disk, a: seq<Step>, b: seq<Step>, k: nat)
    requires k <= |a + b|
    ensures k <= |a| ==> Run(d, (a + b)[..k]) == Run(d, a[..k])
    ensures k > |a| ==> Run(d, (a + b)[..k]) == Run(Run(d, a), b[..k - |a|])
  {
    if k <= |a| {
      assert (a + b)[..k] == a[..k];
    } else {
      assert (a + b)[..k] == a + b[..k - |a|];
      RunAppend(d, a, b[..k - |a|]);
    }
  }

  // ---------------------------------------------------------------- before the commit

  /** A call that only prepares release `id`, with staged content that is what its name stands for. */
  ghost predicate Preparing(book: Book, id: PlanId, s: Step) {
    match s
    case ClearStaging(i) => i == id
    case MakeStaging(i) => i == id
    case StagePackage(i, file, content) => i == id && content == book(file)
    case SignPackage(i, _) => i == id
    case BuildDatabases(i, _) => i == id
    case SignFile(i, _, _) => i == id
    case WriteManifest(i, _) => i == id
    case MovePackage(i, _) => i == id
    case MoveSignature(i, _) => i == id
    case _ => false
  }

  /** `e` is `d` with, at most, more package files in place and other staging directories. */
  ghost predicate Extends(d: Disk, e: Disk) {
    && e.keyring == d.keyring && e.inbox == d.inbox && e.releases == d.releases
    && e.links == d.links && e.temporaries == d.temporaries
    && d.hot.Keys <= e.hot.Keys && d.signatures.Keys <= e.signatures.Keys
  }

  lemma ExtendsServes(book: Book, d: Disk, e: Disk, id: PlanId)
    requires Served(d, id) && Extends(d, e)
    requires ByBook(book, d.hot) && ByBook(book, e.hot) && ByBook(book, e.signatures)
    ensures Served(e, id)
  {
  }

  lemma PreparingStepExtends(book: Book, d: Disk, id: PlanId, s: Step)
    requires Preparing(book, id, s)
    ensures Extends(d, Apply(d, s))
  {
  }

  lemma PreparingStepNames(book: Book, d: Disk, id: PlanId, s: Step)
    requires ByBook(book, d.hot) && ByBook(book, d.signatures) && StagedByBook(book, d) && Preparing(book, id, s)
    ensures var e := Apply(d, s); ByBook(book, e.hot) && ByBook(book, e.signatures) && StagedByBook(book, e)
  {
    hide StagedByBook;
    var e := Apply(d, s);
    if Enabled(d, s) {
      StagedInstance(book, d, id);
      assert forall i <- e.staging | i != id :: i in d.staging && e.staging[i] == d.staging[i];
      assert id in e.staging ==> ByBook(book, e.staging[id].packages) && ByBook(book, e.staging[id].signatures);
      StagedUpdate(book, d, e, id);
    }
  }

  lemma StagedInstance(book: Book, d: Disk, id: PlanId)
    requires StagedByBook(book, d)
    ensures id in d.staging ==> ByBook(book, d.staging[id].packages) && ByBook(book, d.staging[id].signatures)
  {
  }

  lemma StagedUpdate(book: Book, d: Disk, e: Disk, id: PlanId)
    requires StagedByBook(book, d)
    requires forall i <- e.staging | i != id :: i in d.staging && e.staging[i] == d.staging[i]
    requires id in e.staging ==> ByBook(book, e.staging[id].packages) && ByBook(book, e.staging[id].signatures)
    ensures StagedByBook(book, e)
  {
    hide ByBook;
  }

  lemma ExtendsKeepsInv(book: Book, d: Disk, e: Disk)
    requires Inv(d, book) && Extends(d, e)
    requires ByBook(book, e.hot) && ByBook(book, e.signatures) && StagedByBook(book, e)
    ensures Inv(e, book)
  {
    forall link <- e.links ensures Served(e, e.links[link]) {
      ExtendsServes(book, d, e, d.links[link]);
    }
    forall id <- e.releases ensures PlanByBook(book, id.plan) && Genuine(e, id) {
      assert Genuine(d, id);
    }
  }

  lemma PreparingStepKeeps(book: Book, d: Disk, id: PlanId, s: Step)
    requires Inv(d, book) && Preparing(book, id, s)
    ensures Inv(Apply(d, s), book) && Extends(d, Apply(d, s))
  {
    PreparingStepExtends(book, d, id, s);
    PreparingStepNames(book, d, id, s);
    ExtendsKeepsInv(book, d, Apply(d, s));
  }

  lemma {:induction false} PreparingRunKeeps(book: Book, d: Disk, id: PlanId, steps: seq<Step>)
    requires Inv(d, book) && forall s <- steps :: Preparing(book, id, s)
    ensures Inv(Run(d, steps), book) && Extends(d, Run(d, steps))
  {
    if |steps| > 0 {
      PreparingRunKeeps(book, d, id, steps[..|steps| - 1]);
      PreparingStepKeeps(book, Run(d, steps[..|steps| - 1]), id, steps[|steps| - 1]);
    }
  }

  lemma {:induction false} CollectPrepares(book: Book, d: Disk, id: PlanId, artifacts: seq<ArtifactRecord>)
    requires NamesFixed(book, d, id) && forall a <- artifacts :: a in id.plan.artifacts
    ensures forall s <- CollectScript(d, id, artifacts).steps :: Preparing(book, id, s)
  {
    if |artifacts| > 0 {
      CollectPrepares(book, d, id, artifacts[..|artifacts| - 1]);
    }
  }

  lemma {:induction false} MovesPrepare(book: Book, id: PlanId, files: seq<string>)
    ensures forall s <- MoveSteps(id, files) :: Preparing(book, id, s)
  {
    if |files| > 0 {
      MovesPrepare(book, id, files[..|files| - 1]);
    }
  }

  lemma GatherPrepares(book: Book, d: Disk, id: PlanId)
    requires book(d.keyring.record.file) == d.keyring.file && NamesFixed(book, d, id)
    ensures forall s <- GatherScript(d, id).steps :: Preparing(book, id, s)
  {
    CollectPrepares(book, d, id, id.plan.artifacts);
  }

  lemma PreparePrepares(book: Book, d: Disk, id: PlanId)
    requires KeyringByBook(book, d.keyring) && NamesFixed(book, d, id)
    ensures forall s <- PrepareScript(d, id).steps :: Preparing(book, id, s)
  {
    GatherPrepares(book, d, id);
    MovesPrepare(book, id, FilesToMove(d, id));
  }

  // ---------------------------------------------------------------- what the preparation leaves behind

  lemma ExecutableAppend(d: Disk, a: seq<Step>, b: seq<Step>)
    requires Executable(d, a) && Executable(Run(d, a), b)
    ensures Executable(d, a + b)
  {
    forall i | 0 <= i < |a + b| ensures Enabled(Run(d, (a + b)[..i]), (a + b)[i]) {
      CutRun(d, a, b, i);
      if i >= |a| {
        assert (a + b)[i] == b[i - |a|];
        assert b[..0] == [] && a[..|a|] == a;
      }
    }
  }

  /** The list runs from `d` without a failing call and ends in `e`. */
  ghost predicate Runs(d: Disk, steps: seq<Step>, e: Disk) {
    Executable(d, steps) && Run(d, steps) == e
  }

  lemma RunsAppend(d: Disk, a: seq<Step>, e: Disk, b: seq<Step>, f: Disk)
    requires Runs(d, a, e) && Runs(e, b, f)
    ensures Runs(d, a + b, f)
  {
    RunAppend(d, a, b);
    ExecutableAppend(d, a, b);
  }

  ghost predicate Staged(d: Disk, id: PlanId, files: seq<string>) {
    id in d.staging && forall file <- files :: file in d.staging[id].packages && file in d.staging[id].signatures
  }

  lemma StagePair(d: Disk, id: PlanId, file: string, content: PackageFile, files: seq<string>)
    requires Staged(d, id, files)
    ensures var pair := [StagePackage(id, file, content), SignPackage(id, file)];
            && Executable(d, pair) && Staged(Run(d, pair), id, files + [file])
            && Run(d, pair).staging[id].release == d.staging[id].release
  {
    var pair := [StagePackage(id, file, content), SignPackage(id, file)];
    assert pair[..0] == [] && pair[..1] == [pair[0]] && pair[..1][..0] == [];
    var mid := Apply(d, pair[0]);
    assert Run(d, pair[..1]) == mid;
    assert Run(d, pair) == Apply(mid, pair[1]);
  }

  lemma {:induction false} CollectStages(d0: Disk, d: Disk, id: PlanId, artifacts: seq<ArtifactRecord>)
    requires id in d.staging && CollectScript(d0, id, artifacts).ok
    ensures var steps := CollectScript(d0, id, artifacts).steps;
            && Executable(d, steps) && Staged(Run(d, steps), id, NewFiles(d0, artifacts))
            && Run(d, steps).staging[id].release == d.staging[id].release
  {
    if |artifacts| > 0 {
      var before := artifacts[..|artifacts| - 1];
      var a := artifacts[|artifacts| - 1];
      CollectStages(d0, d, id, before);
      var steps := CollectScript(d0, id, before).steps;
      if !Reusable(d0, a) {
        var content := d0.inbox[id].files[a.file];
        var pair := [StagePackage(id, a.file, content), SignPackage(id, a.file)];
        StagePair(Run(d, steps), id, a.file, content, NewFiles(d0, before));
        RunAppend(d, steps, pair);
        ExecutableAppend(d, steps, pair);
      }
    }
  }

  lemma {:induction false} NewOrReusable(d: Disk, artifacts: seq<ArtifactRecord>, a: ArtifactRecord)
    requires a in artifacts
    ensures a.file in NewFiles(d, artifacts) || Reusable(d, a)
  {
    if a != artifacts[|artifacts| - 1] {
      NewOrReusable(d, artifacts[..|artifacts| - 1], a);
    }
  }

  lemma {:induction false} NewComesFromPlan(d: Disk, artifacts: seq<ArtifactRecord>, file: string)
      returns (a: ArtifactRecord)
    requires file in NewFiles(d, artifacts)
    ensures a in artifacts && a.file == file && !Reusable(d, a)
  {
    var last := artifacts[|artifacts| - 1];
    if file in NewFiles(d, artifacts[..|artifacts| - 1]) {
      a := NewComesFromPlan(d, artifacts[..|artifacts| - 1], file);
    } else {
      a := last;
    }
  }

  lemma {:induction false} NewFilesDistinct(d: Disk, artifacts: seq<ArtifactRecord>)
    requires DistinctFiles(artifacts)
    ensures NoRepeats(NewFiles(d, artifacts))
  {
    if |artifacts| > 0 {
      var before := artifacts[..|artifacts| - 1];
      var a := artifacts[|artifacts| - 1];
      NewFilesDistinct(d, before);
      if a.file in NewFiles(d, before) {
        var b := NewComesFromPlan(d, before, a.file);
        assert false;
      }
    }
  }

  lemma {:induction false} CollectedIsDelivered(d: Disk, id: PlanId, artifacts: seq<ArtifactRecord>, a: ArtifactRecord)
    requires CollectScript(d, id, artifacts).ok && a in artifacts && !Reusable(d, a)
    ensures Delivered(d, id, a)
  {
    if a != artifacts[|artifacts| - 1] {
      CollectedIsDelivered(d, id, artifacts[..|artifacts| - 1], a);
    }
  }

  /** A plan cannot smuggle in the keyring: a delivered file of that name would say it is another package. */
  lemma KeyringIsNotNew(book: Book, d: Disk, id: PlanId)
    requires KeyringByBook(book, d.keyring) && NamesFixed(book, d, id) && ReadablePlan(d, id)
    requires CollectScript(d, id, id.plan.artifacts).ok
    ensures d.keyring.record.file !in NewFiles(d, id.plan.artifacts)
  {
    if d.keyring.record.file in NewFiles(d, id.plan.artifacts) {
      var a := NewComesFromPlan(d, id.plan.artifacts, d.keyring.record.file);
      CollectedIsDelivered(d, id, id.plan.artifacts, a);
      assert false;
    }
  }

  lemma MovePair(d: Disk, id: PlanId, file: string, more: seq<string>)
    requires Staged(d, id, [file] + more) && file !in more
    ensures var pair := [MovePackage(id, file), MoveSignature(id, file)];
            var e := Run(d, pair);
            && Executable(d, pair) && Staged(e, id, more)
            && e.staging[id].release == d.staging[id].release
            && e.hot == d.hot[file := d.staging[id].packages[file]]
            && e.signatures == d.signatures[file := d.staging[id].signatures[file]]
            && Sub(e.staging[id].packages, d.staging[id].packages)
            && Sub(e.staging[id].signatures, d.staging[id].signatures)
  {
    var pair := [MovePackage(id, file), MoveSignature(id, file)];
    assert pair[..0] == [] && pair[..1] == [pair[0]] && pair[..1][..0] == [];
    assert file in [file] + more;
    var mid := Apply(d, pair[0]);
    assert Run(d, pair[..1]) == mid;
    var e := Apply(mid, pair[1]);
    assert Run(d, pair) == e;
    forall f <- more ensures f in e.staging[id].packages && f in e.staging[id].signatures {
      assert f in [file] + more;
    }
  }

  lemma {:induction false} MovesDeliver(d: Disk, id: PlanId, files: seq<string>, more: seq<string>)
    requires Staged(d, id, files + more) && NoRepeats(files + more)
    ensures var steps := MoveSteps(id, files);
            var e := Run(d, steps);
            && Executable(d, steps) && Staged(e, id, more)
            && e.staging[id].release == d.staging[id].release
            && forall file <- files :: file in e.hot && file in e.signatures
  {
    if |files| == 0 {
      assert files + more == more;
    } else {
      var before, file := files[..|files| - 1], files[|files| - 1];
      assert files + more == before + ([file] + more);
      MovesDeliver(d, id, before, [file] + more);
      assert file !in more by {
        forall i | 0 <= i < |more| ensures more[i] != file {
          assert (files + more)[|files| - 1] != (files + more)[|files| + i];
        }
      }
      var steps, pair := MoveSteps(id, before), [MovePackage(id, file), MoveSignature(id, file)];
      MovePair(Run(d, steps), id, file, more);
      RunAppend(d, steps, pair);
      ExecutableAppend(d, steps, pair);
      assert MoveSteps(id, files) == steps + pair;
    }
  }

  lemma OpenMakes(d: Disk, id: PlanId)
    ensures Runs(d, OpenSteps(d, id), d.(staging := d.staging[id := StagingDirectory(map[], map[], map[])]))
  {
    var made := d.(staging := d.staging[id := StagingDirectory(map[], map[], map[])]);
    if id in d.staging {
      var mid := d.(staging := d.staging - {id});
      RunOne(d, ClearStaging(id));
      RunOne(mid, MakeStaging(id));
      assert mid.staging[id := StagingDirectory(map[], map[], map[])] == made.staging;
      RunsAppend(d, [ClearStaging(id)], mid, [MakeStaging(id)], made);
    } else {
      RunOne(d, MakeStaging(id));
      assert [] + [MakeStaging(id)] == [MakeStaging(id)];
    }
  }

  lemma GatherStages(d: Disk, id: PlanId)
    requires GatherScript(d, id).ok
    ensures var steps := GatherScript(d, id).steps;
            && Executable(d, steps) && Staged(Run(d, steps), id, FilesToMove(d, id))
            && Run(d, steps).staging[id].release == map[]
  {
    var open, packages, keyring := OpenSteps(d, id), CollectScript(d, id, id.plan.artifacts).steps,
        KeyringScript(d, id).steps;
    OpenMakes(d, id);
    CollectStages(d, Run(d, open), id, id.plan.artifacts);
    RunAppend(d, open, packages);
    ExecutableAppend(d, open, packages);
    var e := Run(d, open + packages);
    if KeyringFound(d) {
      assert open + packages + keyring == open + packages;
      assert NewFiles(d, id.plan.artifacts) + [] == NewFiles(d, id.plan.artifacts);
    } else {
      StagePair(e, id, d.keyring.record.file, d.keyring.file, NewFiles(d, id.plan.artifacts));
      RunAppend(d, open + packages, keyring);
      ExecutableAppend(d, open + packages, keyring);
    }
  }

  /** Indexing and sealing turn an empty staged release into the complete one. */
  lemma SealCompletes(d: Disk, id: PlanId, files: seq<string>)
    requires Staged(d, id, files) && d.staging[id].release == map[]
    ensures var steps := IndexAndSeal(d, id);
            && Executable(d, steps) && Staged(Run(d, steps), id, files)
            && Run(d, steps).staging[id].release == ReleaseFor(d.keyring, id)
  {
    var entries := ExpectedEntries(id.plan.artifacts, d.keyring.record);
    SealList(map[], id, entries, ManifestFor(d, id, entries));
    SealRun(d, id, files, map[], [BuildDatabases(id, entries)] + SealSteps(d, id, entries));
  }

  /** The effect of an indexing, signing or manifest call on the staged release. */
  function Sealed(r: ReleaseDirectory, s: Step): ReleaseDirectory {
    match s
    case BuildDatabases(_, entries) => r[Database := PackageList(entries)][FilesDatabase := PackageList(entries)]
    case SignFile(_, source, target) => if source in r then r[target := SignatureOf(r[source])] else r
    case WriteManifest(_, manifest) => r[Manifest := ManifestText(manifest)]
    case _ => r
  }

  function SealedBy(r: ReleaseDirectory, steps: seq<Step>): ReleaseDirectory {
    if |steps| == 0 then r else Sealed(SealedBy(r, steps[..|steps| - 1]), steps[|steps| - 1])
  }

  predicate Sealing(r: ReleaseDirectory, id: PlanId, s: Step) {
    match s
    case BuildDatabases(i, _) => i == id
    case SignFile(i, source, _) => i == id && source in r
    case WriteManifest(i, _) => i == id
    case _ => false
  }

  lemma SealStep(d: Disk, id: PlanId, files: seq<string>, s: Step)
    requires Staged(d, id, files) && Sealing(d.staging[id].release, id, s)
    ensures Enabled(d, s) && Staged(Apply(d, s), id, files)
    ensures Apply(d, s).staging[id].release == Sealed(d.staging[id].release, s)
  {
  }

  lemma {:induction false} SealRun(d: Disk, id: PlanId, files: seq<string>, r: ReleaseDirectory, steps: seq<Step>)
    requires Staged(d, id, files) && d.staging[id].release == r
    requires forall i :: 0 <= i < |steps| ==> Sealing(SealedBy(r, steps[..i]), id, steps[i])
    ensures Executable(d, steps) && Staged(Run(d, steps), id, files)
    ensures Run(d, steps).staging[id].release == SealedBy(r, steps)
  {
    hide Apply;
    if |steps| > 0 {
      var before := steps[..|steps| - 1];
      forall i | 0 <= i < |before| ensures Sealing(SealedBy(r, before[..i]), id, before[i]) {
        assert before[..i] == steps[..i];
      }
      SealRun(d, id, files, r, before);
      SealStep(Run(d, before), id, files, steps[|steps| - 1]);
      forall i | 0 <= i < |steps| ensures Enabled(Run(d, steps[..i]), steps[i]) {
        if i < |before| { assert before[..i] == steps[..i]; }
      }
    }
  }

  lemma SealedPush(r: ReleaseDirectory, id: PlanId, steps: seq<Step>, s: Step)
    requires forall i :: 0 <= i < |steps| ==> Sealing(SealedBy(r, steps[..i]), id, steps[i])
    requires Sealing(SealedBy(r, steps), id, s)
    ensures SealedBy(r, steps + [s]) == Sealed(SealedBy(r, steps), s)
    ensures forall i :: 0 <= i < |steps + [s]| ==> Sealing(SealedBy(r, (steps + [s])[..i]), id, (steps + [s])[i])
  {
    hide Sealing, Sealed;
    assert (steps + [s])[..|steps|] == steps;
    forall i | 0 <= i < |steps + [s]| ensures Sealing(SealedBy(r, (steps + [s])[..i]), id, (steps + [s])[i]) {
      if i < |steps| { assert (steps + [s])[..i] == steps[..i]; }
    }
  }

  lemma SealedByNothing(r: ReleaseDirectory)
    ensures SealedBy(r, []) == r
  {
  }

  lemma SealList(r: ReleaseDirectory, id: PlanId, entries: map<string, (string, string)>, manifest: PublishManifest)
    requires r == map[]
    ensures var steps := [BuildDatabases(id, entries)]
              + [SignFile(id, Database, DatabaseSig), SignFile(id, FilesDatabase, FilesDatabaseSig),
                 WriteManifest(id, manifest), SignFile(id, Manifest, ManifestSig)];
            var database := PackageList(entries);
            && (forall i :: 0 <= i < |steps| ==> Sealing(SealedBy(r, steps[..i]), id, steps[i]))
            && SealedBy(r, steps) ==
                 map[Database := database, DatabaseSig := SignatureOf(database),
                     FilesDatabase := database, FilesDatabaseSig := SignatureOf(database),
                     Manifest := ManifestText(manifest), ManifestSig := SignatureOf(ManifestText(manifest))]
  {
    hide SealedBy;
    var s1, s2, s3, s4, s5 := BuildDatabases(id, entries), SignFile(id, Database, DatabaseSig),
      SignFile(id, FilesDatabase, FilesDatabaseSig), WriteManifest(id, manifest), SignFile(id, Manifest, ManifestSig);
    SealedByNothing(r);
    SealedPush(r, id, [], s1);
    SealedPush(r, id, [] + [s1], s2);
    SealedPush(r, id, [] + [s1] + [s2], s3);
    SealedPush(r, id, [] + [s1] + [s2] + [s3], s4);
    SealedPush(r, id, [] + [s1] + [s2] + [s3] + [s4], s5);
    assert [] + [s1] + [s2] + [s3] + [s4] + [s5] == [s1] + [s2, s3, s4, s5];
  }

  ghost predicate InPlace(d: Disk, id: PlanId) {
    forall a <- id.plan.artifacts + [d.keyring.record] :: a.file in d.hot && a.file in d.signatures
  }

  lemma StagesRun(d: Disk, id: PlanId, files: seq<string>, gather: seq<Step>, seal: seq<Step>, keyring: Keyring)
    requires Executable(d, gather) && Staged(Run(d, gather), id, files) && NoRepeats(files)
    requires var d1 := Run(d, gather);
             && Executable(d1, seal) && Staged(Run(d1, seal), id, files)
             && Run(d1, seal).staging[id].release == ReleaseFor(keyring, id)
    ensures var steps := gather + seal + MoveSteps(id, files);
            var e := Run(d, steps);
            && Executable(d, steps) && id in e.staging && e.staging[id].release == ReleaseFor(keyring, id)
            && forall file <- files :: file in e.hot && file in e.signatures
  {
    RunAppend(d, gather, seal);
    ExecutableAppend(d, gather, seal);
    assert files + [] == files;
    MovesDeliver(Run(d, gather + seal), id, files, []);
    RunAppend(d, gather + seal, MoveSteps(id, files));
    ExecutableAppend(d, gather + seal, MoveSteps(id, files));
  }

  /** A preparation that succeeds leaves the complete release staged and every package it lists in place. */
  lemma PrepareDelivers(book: Book, d: Disk, id: PlanId)
    requires Inv(d, book) && NamesFixed(book, d, id) && ReadablePlan(d, id) && PrepareScript(d, id).ok
    ensures var steps := PrepareScript(d, id).steps;
            var e := Run(d, steps);
            && Executable(d, steps) && Inv(e, book) && Extends(d, e) && InPlace(e, id)
            && id in e.staging && e.staging[id].release == ReleaseFor(d.keyring, id)
  {
    PrepareStages(book, d, id);
    PreparePrepares(book, d, id);
    var steps := PrepareScript(d, id).steps;
    PreparingRunKeeps(book, d, id, steps);
    MovedInPlace(d, Run(d, steps), id);
  }

  lemma PrepareStages(book: Book, d: Disk, id: PlanId)
    requires Inv(d, book) && NamesFixed(book, d, id) && ReadablePlan(d, id) && PrepareScript(d, id).ok
    ensures var steps := PrepareScript(d, id).steps;
            var e := Run(d, steps);
            && Executable(d, steps) && id in e.staging && e.staging[id].release == ReleaseFor(d.keyring, id)
            && forall file <- FilesToMove(d, id) :: file in e.hot && file in e.signatures
  {
    PrepareShape(d, id);
    var gather := GatherScript(d, id).steps;
    GatherStages(d, id);
    GatherPrepares(book, d, id);
    PreparingRunKeeps(book, d, id, gather);
    SealCompletes(Run(d, gather), id, FilesToMove(d, id));
    FilesToMoveDistinct(book, d, id);
    StagesRun(d, id, FilesToMove(d, id), gather, IndexAndSeal(d, id), d.keyring);
  }

  lemma PrepareShape(d: Disk, id: PlanId)
    requires PrepareScript(d, id).ok
    ensures GatherScript(d, id).ok && CollectScript(d, id, id.plan.artifacts).ok
    ensures PrepareScript(d, id).steps
        == GatherScript(d, id).steps + IndexAndSeal(d, id) + MoveSteps(id, FilesToMove(d, id))
  {
  }

  lemma MovedInPlace(d: Disk, e: Disk, id: PlanId)
    requires Extends(d, e) && forall file <- FilesToMove(d, id) :: file in e.hot && file in e.signatures
    ensures InPlace(e, id)
  {
    forall a <- id.plan.artifacts + [d.keyring.record] ensures a.file in e.hot && a.file in e.signatures {
      if a in id.plan.artifacts {
        NewOrReusable(d, id.plan.artifacts, a);
        if a.file in NewFiles(d, id.plan.artifacts) { assert a.file in FilesToMove(d, id); }
      } else if !KeyringFound(d) {
        assert a.file in FilesToMove(d, id);
      }
    }
  }

  lemma FilesToMoveDistinct(book: Book, d: Disk, id: PlanId)
    requires KeyringByBook(book, d.keyring) && NamesFixed(book, d, id) && ReadablePlan(d, id)
    requires CollectScript(d, id, id.plan.artifacts).ok
    ensures NoRepeats(FilesToMove(d, id))
  {
    NewFilesDistinct(d, id.plan.artifacts);
    KeyringIsNotNew(book, d, id);
  }

  // ---------------------------------------------------------------- commit

  /** The rename that commits a release keeps every release that was served, and serves the new one. */
  lemma CommitServes(book: Book, d: Disk, id: PlanId)
    requires Inv(d, book) && PlanByBook(book, id.plan) && InPlace(d, id) && Enabled(d, Commit(id))
    requires d.staging[id].release == ReleaseFor(d.keyring, id)
    ensures var e := Apply(d, Commit(id)); Inv(e, book) && Served(e, id)
  {
    var e := Apply(d, Commit(id));
    assert forall link <- d.links :: d.links[link] == id ==> d.releases[id] == ReleaseFor(d.keyring, id);
    forall i <- e.releases ensures PlanByBook(book, i.plan) && Genuine(e, i) {
      if i != id { assert Genuine(d, i); }
    }
    forall link <- e.links ensures Served(e, e.links[link]) {
      assert Served(d, d.links[link]);
    }
    forall i <- e.staging ensures ByBook(book, e.staging[i].packages) && ByBook(book, e.staging[i].signatures) {
      assert i in d.staging;
    }
  }

  // ---------------------------------------------------------------- activation

  lemma ActivatableIsServed(book: Book, d: Disk, id: PlanId)
    requires Inv(d, book)
    ensures Activatable(d, id) <==> Served(d, id)
  {
    if Activatable(d, id) {
      assert Genuine(d, id);
      assert d.releases[id].Keys == ReleaseFor(d.keyring, id).Keys;
      assert d.releases[id] == ReleaseFor(d.keyring, id);
    }
    ServedIsActivatable(d, id);
  }

  /** The signer's checks let a served release through. */
  lemma ServedIsActivatable(d: Disk, id: PlanId)
    ensures Served(d, id) ==> Activatable(d, id) && Committed(d, id)
  {
    if Served(d, id) {
      var r := ReleaseFor(d.keyring, id);
      assert r[Manifest].manifest.artifacts == id.plan.artifacts;
    }
  }

  function Linked(links: map<LinkName, PlanId>, targets: seq<(LinkName, PlanId)>): map<LinkName, PlanId> {
    if |targets| == 0 then links else
    Linked(links, targets[..|targets| - 1])[targets[|targets| - 1].0 := targets[|targets| - 1].1]
  }

  ghost predicate DistinctLinks(targets: seq<(LinkName, PlanId)>) {
    forall i, j :: 0 <= i < j < |targets| ==> targets[i].0 != targets[j].0
  }

  ghost predicate SameOutsideLinks(d: Disk, e: Disk) {
    && e.keyring == d.keyring && e.inbox == d.inbox && e.hot == d.hot && e.signatures == d.signatures
    && e.staging == d.staging && e.releases == d.releases
  }

  lemma RunOne(d: Disk, s: Step)
    ensures Run(d, [s]) == Apply(d, s) && (Enabled(d, s) ==> Runs(d, [s], Apply(d, s)))
  {
    assert [s][..0] == [];
  }

  /** The temporary link is in place before the swap, whether or not an earlier run left one behind. */
  lemma TemporaryMade(e: Disk, link: LinkName, id: PlanId)
    ensures Runs(e, (if link in e.temporaries then [DropTemporary(link)] else []) + [MakeTemporary(link, id)],
                 e.(temporaries := e.temporaries[link := id]))
  {
    var made := e.(temporaries := e.temporaries[link := id]);
    if link in e.temporaries {
      var mid := e.(temporaries := e.temporaries - {link});
      RunOne(e, DropTemporary(link));
      RunOne(mid, MakeTemporary(link, id));
      assert mid.temporaries[link := id] == e.temporaries[link := id];
      RunsAppend(e, [DropTemporary(link)], mid, [MakeTemporary(link, id)], made);
    } else {
      RunOne(e, MakeTemporary(link, id));
      assert [] + [MakeTemporary(link, id)] == [MakeTemporary(link, id)];
    }
  }

  lemma OneLink(d: Disk, e: Disk, link: LinkName, id: PlanId)
    requires link in e.temporaries <==> link in d.temporaries
    ensures Runs(e, AtomicLinkSteps(d, link, id),
        e.(links := e.links[link := id], temporaries := e.temporaries - {link}))
  {
    TemporaryMade(e, link, id);
    var make := (if link in e.temporaries then [DropTemporary(link)] else []) + [MakeTemporary(link, id)];
    var mid := e.(temporaries := e.temporaries[link := id]);
    RunOne(mid, SwapLink(link));
    assert mid.temporaries - {link} == e.temporaries - {link};
    RunsAppend(e, make, mid, [SwapLink(link)], e.(links := e.links[link := id], temporaries := e.temporaries - {link}));
    assert AtomicLinkSteps(d, link, id) == make + [SwapLink(link)];
  }

  lemma {:induction false} IdleRun(e: Disk, steps: seq<Step>)
    requires forall s <- steps :: s.DropTemporary? || s.MakeTemporary?
    ensures Run(e, steps).links == e.links && SameOutsideLinks(e, Run(e, steps))
  {
    if |steps| > 0 {
      IdleRun(e, steps[..|steps| - 1]);
      IdleStep(Run(e, steps[..|steps| - 1]), steps[|steps| - 1]);
    }
  }

  lemma IdleStep(e: Disk, s: Step)
    requires s.DropTemporary? || s.MakeTemporary?
    ensures Apply(e, s).links == e.links && SameOutsideLinks(e, Apply(e, s))
  {
  }

  lemma {:induction false} LinksRun(d: Disk, targets: seq<(LinkName, PlanId)>)
    requires DistinctLinks(targets)
    ensures var e := Run(d, LinkSteps(d, targets));
            && Executable(d, LinkSteps(d, targets)) && SameOutsideLinks(d, e)
            && e.links == Linked(d.links, targets)
    ensures forall l | (forall t <- targets :: t.0 != l) ::
              l in Run(d, LinkSteps(d, targets)).temporaries <==> l in d.temporaries
  {
    if |targets| > 0 {
      var before, last := targets[..|targets| - 1], targets[|targets| - 1];
      LinksRun(d, before);
      assert forall t <- before :: t.0 != last.0;
      LinkLast(d, targets);
    }
  }

  lemma LinkLast(d: Disk, targets: seq<(LinkName, PlanId)>)
    requires |targets| > 0
    requires var before, last := targets[..|targets| - 1], targets[|targets| - 1];
             && Executable(d, LinkSteps(d, before))
             && (last.0 in Run(d, LinkSteps(d, before)).temporaries <==> last.0 in d.temporaries)
    ensures var e := Run(d, LinkSteps(d, targets[..|targets| - 1]));
            var last := targets[|targets| - 1];
            && Executable(d, LinkSteps(d, targets))
            && Run(d, LinkSteps(d, targets))
                == e.(links := e.links[last.0 := last.1], temporaries := e.temporaries - {last.0})
  {
    var before, last := targets[..|targets| - 1], targets[|targets| - 1];
    var steps := LinkSteps(d, before);
    OneLink(d, Run(d, steps), last.0, last.1);
    RunAppend(d, steps, AtomicLinkSteps(d, last.0, last.1));
    ExecutableAppend(d, steps, AtomicLinkSteps(d, last.0, last.1));
  }

  /** A cut of the link swaps leaves the first `j` links replaced and the rest as they were. */
  lemma {:induction false} LinksCut(d: Disk, targets: seq<(LinkName, PlanId)>, k: nat) returns (j: nat)
    requires DistinctLinks(targets) && k <= |LinkSteps(d, targets)|
    ensures var e := Run(d, LinkSteps(d, targets)[..k]);
            j <= |targets| && SameOutsideLinks(d, e) && e.links == Linked(d.links, targets[..j])
    ensures k == |LinkSteps(d, targets)| ==> j == |targets|
  {
    hide Apply;
    if k == |LinkSteps(d, targets)| {
      LinksRun(d, targets);
      assert LinkSteps(d, targets)[..k] == LinkSteps(d, targets) && targets[..|targets|] == targets;
      j := |targets|;
    } else {
      var before, last := targets[..|targets| - 1], targets[|targets| - 1];
      var a, b := LinkSteps(d, before), AtomicLinkSteps(d, last.0, last.1);
      CutRun(d, a, b, k);
      if k <= |a| {
        j := LinksCut(d, before, k);
        assert before[..j] == targets[..j];
      } else {
        LinksRun(d, before);
        IdleRun(Run(d, a), b[..k - |a|]);
        j := |targets| - 1;
      }
    }
  }

  lemma RelinkKeeps(book: Book, d: Disk, e: Disk)
    requires Inv(d, book) && SameOutsideLinks(d, e)
    requires forall link <- e.links :: Served(d, e.links[link])
    ensures Inv(e, book)
  {
    forall id <- e.releases ensures PlanByBook(book, id.plan) && Genuine(e, id) {
      assert Genuine(d, id);
    }
    forall link <- e.links ensures Served(e, e.links[link]) {
      assert Served(d, e.links[link]);
    }
  }

  lemma {:induction false} LinkedServes(d: Disk, links: map<LinkName, PlanId>, targets: seq<(LinkName, PlanId)>)
    requires forall link <- links :: Served(d, links[link])
    requires forall t <- targets :: Served(d, t.1)
    ensures forall link <- Linked(links, targets) :: Served(d, Linked(links, targets)[link])
  {
    if |targets| > 0 {
      LinkedServes(d, links, targets[..|targets| - 1]);
    }
  }

  lemma TargetsServed(book: Book, d: Disk, id: PlanId)
    requires Inv(d, book) && Activatable(d, id)
    ensures DistinctLinks(Targets(d, id)) && forall t <- Targets(d, id) :: Served(d, t.1)
  {
    hide Apply, Served, Activatable, DistinctLinks, ByBook, StagedByBook, PlanByBook, Genuine, KeyringByBook;
    ActivatableIsServed(book, d, id);
    TargetsDistinct(d, id);
    var current := CurrentRelease(d);
    assert current.Some? ==> Served(d, current.value);
  }

  /** Activation is safe at every cut. */
  lemma ActivateIsSafe(book: Book, d: Disk, id: PlanId, k: nat)
    requires Inv(d, book) && k <= |ActivateScript(d, id).steps|
    ensures Inv(Run(d, ActivateScript(d, id).steps[..k]), book)
  {
    if Activatable(d, id) {
      TargetsServed(book, d, id);
      var j := LinksCut(d, Targets(d, id), k);
      LinkedServes(d, d.links, Targets(d, id)[..j]);
      RelinkKeeps(book, d, Run(d, LinkSteps(d, Targets(d, id))[..k]));
    }
  }

  // ---------------------------------------------------------------- pruning

  /** A call that removes something no kept release needs. */
  ghost predicate Discarding(d: Disk, s: Step) {
    match s
    case UnlinkReleaseFile(id, _) => id !in KeptReleases(d)
    case RemoveReleaseDirectory(id) => id !in KeptReleases(d)
    case RemovePackage(file) => file !in KeptFiles(d)
    case RemoveSignature(file) => file !in KeptFiles(d)
    case _ => false
  }

  /** `e` is `d` with some of the discardable releases and packages gone. */
  ghost predicate Thinned(d: Disk, e: Disk) {
    && e.keyring == d.keyring && e.inbox == d.inbox && e.staging == d.staging
    && e.links == d.links && e.temporaries == d.temporaries
    && (forall id <- e.releases :: id in d.releases && Sub(e.releases[id], d.releases[id]))
    && (forall id <- KeptReleases(d) :: id in d.releases ==> id in e.releases && e.releases[id] == d.releases[id])
    && Sub(e.hot, d.hot) && Sub(e.signatures, d.signatures)
    && (forall file <- KeptFiles(d) ::
        (file in d.hot ==> file in e.hot) && (file in d.signatures ==> file in e.signatures))
  }

  ghost predicate Sub<K, V>(a: map<K, V>, b: map<K, V>) {
    forall x <- a :: x in b && a[x] == b[x]
  }

  lemma DiscardingStepThins(d: Disk, e: Disk, s: Step)
    requires Thinned(d, e) && Discarding(d, s)
    ensures Thinned(d, Apply(e, s))
  {
  }

  lemma {:induction false} DiscardingRunThins(d: Disk, steps: seq<Step>)
    requires forall s <- steps :: Discarding(d, s)
    ensures Thinned(d, Run(d, steps))
  {
    if |steps| > 0 {
      DiscardingRunThins(d, steps[..|steps| - 1]);
      DiscardingStepThins(d, Run(d, steps[..|steps| - 1]), steps[|steps| - 1]);
    }
  }

  lemma {:induction false} UnlinkDiscards(d: Disk, r: ReleaseDirectory, id: PlanId, inside: seq<ReleaseFile>)
    requires id !in KeptReleases(d)
    ensures forall s <- UnlinkSteps(r, id, inside) :: Discarding(d, s)
  {
    if |inside| > 0 {
      UnlinkDiscards(d, r, id, inside[..|inside| - 1]);
    }
  }

  lemma {:induction false} RemoveReleasesDiscards(d: Disk, order: ScanOrder, ids: seq<PlanId>)
    ensures forall s <- RemoveReleasesSteps(d, order, ids) :: Discarding(d, s)
  {
    if |ids| > 0 {
      RemoveReleasesDiscards(d, order, ids[..|ids| - 1]);
      var id := ids[|ids| - 1];
      if id in d.releases && id !in KeptReleases(d) {
        UnlinkDiscards(d, d.releases[id], id, order.inside);
      }
    }
  }

  lemma {:induction false} RemoveEntriesDiscards(d: Disk, entries: seq<Entry>)
    ensures forall s <- RemoveEntriesSteps(d, entries) :: Discarding(d, s)
  {
    if |entries| > 0 {
      RemoveEntriesDiscards(d, entries[..|entries| - 1]);
    }
  }

  lemma PruneDiscards(d: Disk, order: ScanOrder)
    ensures forall s <- PruneScript(d, order).steps :: Discarding(d, s)
  {
    RemoveReleasesDiscards(d, order, order.releases);
    RemoveEntriesDiscards(d, order.entries);
  }

  /** Pruning has nothing to go by, or the repository links point only at what it keeps. */
  predicate PruneAllowed(d: Disk) {
    KeptReleases(d) == {} || forall link <- d.links :: d.links[link] in KeptReleases(d)
  }

  lemma KeptFilesCoverServed(d: Disk, id: PlanId, file: string)
    requires id in KeptReleases(d) && Served(d, id)
    requires exists a :: a in id.plan.artifacts + [d.keyring.record] && a.file == file
    ensures file in KeptFiles(d)
  {
    var a :| a in id.plan.artifacts + [d.keyring.record] && a.file == file;
    var m := ReleaseFor(d.keyring, id)[Manifest].manifest;
    assert m.artifacts == id.plan.artifacts;
    assert file in ReferencedFiles(d.releases[id]);
  }

  lemma ThinningKeepsServed(d: Disk, e: Disk, id: PlanId)
    requires Thinned(d, e) && id in KeptReleases(d) && Served(d, id)
    ensures Served(e, id)
  {
    forall a <- id.plan.artifacts + [e.keyring.record]
      ensures a.file in e.hot && Matches(e.hot[a.file], a) && Verified(e, a.file)
    {
      KeptFilesCoverServed(d, id, a.file);
    }
  }

  lemma ThinningKeepsInv(book: Book, d: Disk, e: Disk)
    requires Inv(d, book) && PruneAllowed(d) && KeptReleases(d) != {} && Thinned(d, e)
    ensures Inv(e, book)
  {
    forall link <- e.links ensures Served(e, e.links[link]) {
      ThinningKeepsServed(d, e, d.links[link]);
    }
    forall id <- e.releases ensures PlanByBook(book, id.plan) && Genuine(e, id) {
      assert Genuine(d, id);
    }
  }

  lemma PruneIsSafe(book: Book, d: Disk, order: ScanOrder, k: nat)
    requires Inv(d, book) && PruneAllowed(d) && k <= |PruneScript(d, order).steps|
    ensures Inv(Run(d, PruneScript(d, order).steps[..k]), book)
  {
    if KeptReleases(d) != {} {
      PruneDiscards(d, order);
      DiscardingRunThins(d, PruneScript(d, order).steps[..k]);
      ThinningKeepsInv(book, d, Run(d, PruneScript(d, order).steps[..k]));
    }
  }

  // ---------------------------------------------------------------- whole runs

  /** The links after all of them are swapped. */
  function Switched(d: Disk, id: PlanId): map<LinkName, PlanId> {
    var repository := d.links[DbSig := id][FilesSig := id][Files := id][Db := id];
    var current := CurrentRelease(d);
    (if current.Some? && current.value != id then repository[Previous := current.value] else repository)[Current := id]
  }

  lemma LinkedPush(links: map<LinkName, PlanId>, targets: seq<(LinkName, PlanId)>, t: (LinkName, PlanId))
    ensures Linked(links, targets + [t]) == Linked(links, targets)[t.0 := t.1]
  {
    assert (targets + [t])[..|targets + [t]| - 1] == targets;
  }

  lemma LinkedIsSwitched(d: Disk, id: PlanId)
    ensures Linked(d.links, Targets(d, id)) == Switched(d, id)
  {
    var a := [(DbSig, id)];
    LinkedPush(d.links, [], (DbSig, id)); assert [] + a == a;
    LinkedPush(d.links, a, (FilesSig, id));
    LinkedPush(d.links, a + [(FilesSig, id)], (Files, id));
    LinkedPush(d.links, a + [(FilesSig, id)] + [(Files, id)], (Db, id));
    var four := a + [(FilesSig, id)] + [(Files, id)] + [(Db, id)];
    assert four == [(DbSig, id), (FilesSig, id), (Files, id), (Db, id)];
    var current := CurrentRelease(d);
    if current.Some? && current.value != id {
      LinkedPush(d.links, four, (Previous, current.value));
      LinkedPush(d.links, four + [(Previous, current.value)], (Current, id));
    } else {
      assert four + [] == four;
      LinkedPush(d.links, four, (Current, id));
    }
  }

  /** A completed activation swaps all links and touches nothing else. */
  lemma ActivatedLinks(d: Disk, id: PlanId)
    requires Activatable(d, id)
    ensures var e := Run(d, ActivateScript(d, id).steps);
            && SameOutsideLinks(d, e) && e.links == Switched(d, id) && Executable(d, ActivateScript(d, id).steps)
  {
    hide Apply, Run, Activatable, LinkSteps, Linked, Switched, SameOutsideLinks, Executable, Targets, DistinctLinks;
    TargetsDistinct(d, id);
    LinksRun(d, Targets(d, id));
    LinkedIsSwitched(d, id);
  }

  lemma TargetsDistinct(d: Disk, id: PlanId)
    ensures DistinctLinks(Targets(d, id))
  {
    hide CurrentRelease;
  }

  /** A completed activation serves the release under all links, so that pruning may follow. */
  lemma ActivateSwitches(book: Book, d: Disk, id: PlanId)
    requires Inv(d, book) && Activatable(d, id)
    ensures var e := Run(d, ActivateScript(d, id).steps);
            && Inv(e, book) && SameOutsideLinks(d, e) && e.links == Switched(d, id) && PruneAllowed(e)
            && Executable(d, ActivateScript(d, id).steps)
  {
    ActivatedLinks(d, id);
    var steps := ActivateScript(d, id).steps;
    assert steps[..|steps|] == steps;
    ActivateIsSafe(book, d, id, |steps|);
    SwitchedMayPrune(d, Run(d, steps), id);
  }

  lemma SwitchedMayPrune(d: Disk, e: Disk, id: PlanId)
    requires e.links == Switched(d, id)
    ensures PruneAllowed(e)
  {
    forall link <- e.links ensures e.links[link] in KeptReleases(e) {
      assert Current in e.links && e.links[Current] == id;
      if link == Previous {
        assert e.links[Previous] in KeptReleases(e);
      } else {
        assert e.links[link] == id;
      }
    }
  }

  /** After a successful preparation the commit is possible, serves the release, and activation follows. */
  lemma CommitActivates(book: Book, d: Disk, id: PlanId)
    requires Inv(d, book) && NamesFixed(book, d, id) && ReadablePlan(d, id)
    requires PrepareScript(d, id).ok && Vacant(d, id)
    ensures var steps := PrepareScript(d, id).steps + [Commit(id)];
            var e := Run(d, steps);
            && Executable(d, steps) && Inv(e, book) && Served(e, id) && Activatable(e, id)
            && e.links == d.links && e.keyring == d.keyring && e.inbox == d.inbox
            && e.releases == d.releases[id := ReleaseFor(d.keyring, id)]
            && d.hot.Keys <= e.hot.Keys && d.signatures.Keys <= e.signatures.Keys
  {
    PrepareDelivers(book, d, id);
    var steps := PrepareScript(d, id).steps;
    var mid := Run(d, steps);
    RunOne(mid, Commit(id));
    RunAppend(d, steps, [Commit(id)]);
    ExecutableAppend(d, steps, [Commit(id)]);
    CommitServes(book, mid, id);
    ActivatableIsServed(book, Apply(mid, Commit(id)), id);
  }

  /** Main result for publishing: cut anywhere, the invariant holds. */
  lemma PublishIsSafe(book: Book, d: Disk, id: PlanId, order: ScanOrder, k: nat)
    requires Inv(d, book) && NamesFixed(book, d, id) && k <= |PublishSteps(d, id, order)|
    ensures Inv(Run(d, PublishSteps(d, id, order)[..k]), book)
  {
    hide Apply;
    var script := PublishScript(d, id);
    var prune := PublishSteps(d, id, order)[|script.steps|..];
    assert PublishSteps(d, id, order) == script.steps + prune;
    CutRun(d, script.steps, prune, k);
    if k <= |script.steps| {
      PublishScriptIsSafe(book, d, id, k);
    } else {
      PublishEnds(book, d, id);
      PruneIsSafe(book, Run(d, script.steps), order, k - |script.steps|);
    }
  }

  /** The parts of a publish that gets as far as the commit. */
  lemma FreshScript(book: Book, d: Disk, id: PlanId) returns (prepare: seq<Step>, mid: Disk)
    requires Inv(d, book) && NamesFixed(book, d, id) && ReadablePlan(d, id) && !Committed(d, id)
    requires PrepareScript(d, id).ok && Vacant(d, id)
    ensures mid == Run(d, prepare + [Commit(id)]) && Inv(mid, book)
    ensures forall s <- prepare :: Preparing(book, id, s)
    ensures PublishScript(d, id).steps == prepare + [Commit(id)] + ActivateScript(mid, id).steps
  {
    prepare := PrepareScript(d, id).steps;
    mid := Run(d, prepare + [Commit(id)]);
    PreparePrepares(book, d, id);
    CommitActivates(book, d, id);
  }

  lemma CutFreshIsSafe(book: Book, d: Disk, id: PlanId, prepare: seq<Step>, mid: Disk, links: seq<Step>, k: nat)
    requires Inv(d, book) && (forall s <- prepare :: Preparing(book, id, s))
    requires mid == Run(d, prepare + [Commit(id)]) && Inv(mid, book) && links == ActivateScript(mid, id).steps
    requires k <= |prepare + [Commit(id)] + links|
    ensures Inv(Run(d, (prepare + [Commit(id)] + links)[..k]), book)
  {
    var committed := prepare + [Commit(id)];
    CutRun(d, committed, links, k);
    if k <= |prepare| {
      assert committed[..k] == prepare[..k];
      PreparingRunKeeps(book, d, id, prepare[..k]);
    } else if k == |committed| {
      assert committed[..k] == committed;
    } else {
      ActivateIsSafe(book, mid, id, k - |committed|);
    }
  }

  lemma PublishScriptIsSafe(book: Book, d: Disk, id: PlanId, k: nat)
    requires Inv(d, book) && NamesFixed(book, d, id) && k <= |PublishScript(d, id).steps|
    ensures Inv(Run(d, PublishScript(d, id).steps[..k]), book)
  {
    if !ReadablePlan(d, id) {
    } else if Committed(d, id) {
      ActivateIsSafe(book, d, id, k);
    } else if !PrepareScript(d, id).ok || !Vacant(d, id) {
      PreparePrepares(book, d, id);
      PreparingRunKeeps(book, d, id, PrepareScript(d, id).steps[..k]);
    } else {
      var prepare, mid := FreshScript(book, d, id);
      CutFreshIsSafe(book, d, id, prepare, mid, ActivateScript(mid, id).steps, k);
    }
  }

  /** What a successful publish changes, whichever of its two paths it takes. */
  ghost predicate Published(d: Disk, e: Disk, id: PlanId) {
    && e.links == Switched(d, id) && PruneAllowed(e) && Served(e, id)
    && e.keyring == d.keyring && e.inbox == d.inbox
    && e.releases == d.releases[id := ReleaseFor(d.keyring, id)]
    && d.hot.Keys <= e.hot.Keys && d.signatures.Keys <= e.signatures.Keys
  }

  lemma PublishShape(d: Disk, id: PlanId)
    requires PublishScript(d, id).ok && !Committed(d, id)
    ensures ReadablePlan(d, id) && PrepareScript(d, id).ok && Vacant(d, id)
    ensures var committed := PrepareScript(d, id).steps + [Commit(id)];
            PublishScript(d, id).steps == committed + ActivateScript(Run(d, committed), id).steps
  {
  }

  /** A publish script that succeeds ends with the release under all links, and none of its calls fails. */
  lemma PublishEnds(book: Book, d: Disk, id: PlanId)
    requires Inv(d, book) && NamesFixed(book, d, id) && PublishScript(d, id).ok
    ensures var e := Run(d, PublishScript(d, id).steps);
            Inv(e, book) && Published(d, e, id) && Executable(d, PublishScript(d, id).steps)
  {
    if Committed(d, id) {
      ActivateSwitches(book, d, id);
      ActivatableIsServed(book, d, id);
      assert d.releases == d.releases[id := ReleaseFor(d.keyring, id)];
    } else {
      PublishShape(d, id);
      CommitActivates(book, d, id);
      ThenActivate(book, d, id, PrepareScript(d, id).steps + [Commit(id)]);
    }
  }

  lemma ThenActivate(book: Book, d: Disk, id: PlanId, committed: seq<Step>)
    requires Executable(d, committed)
    requires var e := Run(d, committed);
             && Inv(e, book) && Served(e, id) && Activatable(e, id)
             && e.links == d.links && e.keyring == d.keyring && e.inbox == d.inbox
             && e.releases == d.releases[id := ReleaseFor(d.keyring, id)]
             && d.hot.Keys <= e.hot.Keys && d.signatures.Keys <= e.signatures.Keys
    ensures var steps := committed + ActivateScript(Run(d, committed), id).steps;
            Inv(Run(d, steps), book) && Published(d, Run(d, steps), id) && Executable(d, steps)
  {
    var e := Run(d, committed);
    ActivateSwitches(book, e, id);
    RunAppend(d, committed, ActivateScript(e, id).steps);
    ExecutableAppend(d, committed, ActivateScript(e, id).steps);
    SwitchedIsPublished(d, e, Run(e, ActivateScript(e, id).steps), id);
  }

  lemma SwitchedIsPublished(d: Disk, e: Disk, f: Disk, id: PlanId)
    requires e.links == d.links && e.keyring == d.keyring && e.inbox == d.inbox && Served(e, id)
    requires e.releases == d.releases[id := ReleaseFor(d.keyring, id)]
    requires d.hot.Keys <= e.hot.Keys && d.signatures.Keys <= e.signatures.Keys
    requires SameOutsideLinks(e, f) && f.links == Switched(e, id) && PruneAllowed(f)
    ensures Published(d, f, id)
  {
    ServedSame(e, f, id);
  }

  lemma ServedSame(d: Disk, e: Disk, id: PlanId)
    requires SameOutsideLinks(d, e) && Served(d, id)
    ensures Served(e, id)
  {
  }

  /** Everything that can happen to the signer's directories; each run may be cut after any number of calls. */
  datatype Event =
    | InboxChange(id: PlanId, delivered: Option<InboxDirectory>)
    | PublishRun(id: PlanId, order: ScanOrder, cut: nat)
    | ActivateRun(id: PlanId, cut: nat)
    | RollbackRun(cut: nat)
    | PruneRun(order: ScanOrder, cut: nat)

  function StepsOf(d: Disk, event: Event): seq<Step> {
    match event
    case InboxChange(_, _) => []
    case PublishRun(id, order, _) => PublishSteps(d, id, order)
    case ActivateRun(id, _) => ActivateScript(d, id).steps
    case RollbackRun(_) => RollbackScript(d).steps
    case PruneRun(order, _) => PruneScript(d, order).steps
  }

  function After(d: Disk, event: Event): Disk {
    if event.InboxChange? then
      d.(inbox := if event.delivered.Some? then d.inbox[event.id := event.delivered.value] else d.inbox - {event.id})
    else
      var steps := StepsOf(d, event);
      Run(d, if event.cut <= |steps| then steps[..event.cut] else steps)
  }

  /** The hypotheses: names are fixed for what is published, and a pruning of its own happens only when the
      repository links point at kept releases. */
  ghost predicate Admissible(book: Book, d: Disk, event: Event) {
    && (event.PublishRun? ==> NamesFixed(book, d, event.id))
    && (event.PruneRun? ==> PruneAllowed(d))
  }

  function History(d: Disk, events: seq<Event>): Disk {
    if |events| == 0 then d else After(History(d, events[..|events| - 1]), events[|events| - 1])
  }

  lemma EventIsSafe(book: Book, d: Disk, event: Event)
    requires Inv(d, book) && Admissible(book, d, event)
    ensures Inv(After(d, event), book)
  {
    var steps := StepsOf(d, event);
    var k := if event.InboxChange? || event.cut > |steps| then |steps| else event.cut;
    assert steps[..|steps|] == steps;
    match event
    case InboxChange(_, _) =>
      forall link <- d.links ensures Served(After(d, event), d.links[link]) { assert Served(d, d.links[link]); }
      forall id <- d.releases ensures Genuine(After(d, event), id) { assert Genuine(d, id); }
    case PublishRun(id, order, _) => PublishIsSafe(book, d, id, order, k);
    case ActivateRun(id, _) => ActivateIsSafe(book, d, id, k);
    case RollbackRun(_) => if Previous in d.links { ActivateIsSafe(book, d, d.links[Previous], k); }
    case PruneRun(order, _) => PruneIsSafe(book, d, order, k);
  }

  /** After any history of cut and complete runs, from an empty repository, every link serves a whole release. */
  lemma {:induction false} HistoryIsSafe(book: Book, d: Disk, events: seq<Event>)
    requires KeyringByBook(book, d.keyring)
    requires d.hot == map[] && d.signatures == map[] && d.staging == map[] && d.releases == map[] && d.links == map[]
    requires forall i :: 0 <= i < |events| ==> Admissible(book, History(d, events[..i]), events[i])
    ensures Inv(History(d, events), book) && Safe(History(d, events))
  {
    if |events| > 0 {
      var before := events[..|events| - 1];
      forall i | 0 <= i < |before| ensures Admissible(book, History(d, before[..i]), before[i]) {
        assert before[..i] == events[..i];
      }
      HistoryIsSafe(book, d, before);
      EventIsSafe(book, History(d, before), events[|events| - 1]);
    }
  }
}
