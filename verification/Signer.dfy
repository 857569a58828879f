/** The signer as it works: loops over the plan, the directories and the links, one file-system call at a time.
    Every method is proved to issue the calls of its script, or a prefix of them when a call is interrupted. */
module Signer {
  import opened Protocol
  import opened Repository
  import opened CrashSafety
  import opened Convergence

  /** How the calls a method issued relate to its script, by how the method ended. */
  ghost predicate Follows(steps: seq<Step>, script: Script, ok: bool, interrupted: bool) {
    && steps <= script.steps
    && (ok ==> steps == script.steps && script.ok)
    && (!ok && !interrupted ==> steps == script.steps && !script.ok)
  }

  // ---------------------------------------------------------------- turns

  /** What the signer writes about a plan: nothing when the machine stops first, else success or failure. */
  datatype Answer = Silent | Success | Failure

  /** One turn at one plan: where its run was cut, and what was answered. Any error on the way cuts the run and answers
      failure; so does one after the last call. An error in pruning cuts the run and still answers success. */
  datatype Turn = Turn(id: PlanId, order: ScanOrder, cut: nat, answer: Answer)

  function TurnSteps(d: Disk, t: Turn): seq<Step> {
    var steps := PublishSteps(d, t.id, t.order);
    if t.cut <= |steps| then steps[..t.cut] else steps
  }

  function AfterTurn(d: Disk, t: Turn): Disk {
    Run(d, TurnSteps(d, t))
  }

  /** Success is only answered once the release is activated. */
  predicate Allowed(d: Disk, t: Turn) {
    t.answer == Success ==> PublishScript(d, t.id).ok && t.cut >= |PublishScript(d, t.id).steps|
  }

  function WithAnswer(outbox: map<PlanId, bool>, t: Turn): map<PlanId, bool> {
    match t.answer
    case Silent => outbox
    case Success => outbox[t.id := true]
    case Failure => outbox[t.id := false]
  }

  function DiskAfter(d: Disk, turns: seq<Turn>): Disk {
    if |turns| == 0 then d else AfterTurn(DiskAfter(d, turns[..|turns| - 1]), turns[|turns| - 1])
  }

  function OutboxAfter(outbox: map<PlanId, bool>, turns: seq<Turn>): map<PlanId, bool> {
    if |turns| == 0 then outbox else WithAnswer(OutboxAfter(outbox, turns[..|turns| - 1]), turns[|turns| - 1])
  }

  /** The turn takes a plan of the inbox that has no answer yet. */
  ghost predicate TurnAt(d: Disk, outbox: map<PlanId, bool>, turns: seq<Turn>, i: nat)
    requires i < |turns|
  {
    && turns[i].id in d.inbox && turns[i].id !in OutboxAfter(outbox, turns[..i])
    && Allowed(DiskAfter(d, turns[..i]), turns[i])
  }

  /** One turn after the other; only the last one may stay without an answer. */
  ghost predicate TakesTurns(d: Disk, outbox: map<PlanId, bool>, turns: seq<Turn>) {
    && (forall i :: 0 <= i < |turns| ==> TurnAt(d, outbox, turns, i))
    && (forall i :: 0 <= i < |turns| - 1 ==> turns[i].answer != Silent)
  }

  lemma NoTurns(d: Disk, outbox: map<PlanId, bool>)
    ensures TakesTurns(d, outbox, []) && DiskAfter(d, []) == d && OutboxAfter(outbox, []) == outbox
  {
  }

  /** Before the pruning, only activation touches links. */
  lemma {:induction false} LinksUntouched(d: Disk, steps: seq<Step>)
    requires forall s <- steps :: !s.SwapLink?
    ensures Run(d, steps).links == d.links
  {
    hide Apply;
    if |steps| > 0 {
      LinksUntouched(d, steps[..|steps| - 1]);
      LinksUntouchedStep(Run(d, steps[..|steps| - 1]), steps[|steps| - 1]);
    }
  }

  lemma LinksUntouchedStep(d: Disk, s: Step)
    requires !s.SwapLink?
    ensures Apply(d, s).links == d.links
  {
  }

  lemma PrepareSwapsNothing(d: Disk, id: PlanId)
    ensures forall s <- PrepareScript(d, id).steps :: !s.SwapLink?
  {
    hide Apply, Run, RepoAdd, CollectScript, MoveSteps, ExpectedEntries, AllPaths, KeyringFound, FilesToMove;
    CollectStays(d, id, id.plan.artifacts);
    MovesStay(id, FilesToMove(d, id));
  }

  /** A publish that succeeds puts its release under all links, whatever names stand for. */
  lemma ScriptSwitches(d: Disk, id: PlanId)
    requires PublishScript(d, id).ok
    ensures Run(d, PublishScript(d, id).steps).links == Switched(d, id)
  {
    hide Apply, Run, PrepareScript, Activatable, LinkSteps, Targets, Vacant, ReadablePlan;
    if Committed(d, id) {
      ActivatedLinks(d, id);
    } else {
      var committed := PrepareScript(d, id).steps + [Commit(id)];
      var mid := Run(d, committed);
      PrepareSwapsNothing(d, id);
      LinksUntouched(d, committed);
      ActivatedLinks(mid, id);
      RunAppend(d, committed, ActivateScript(mid, id).steps);
      SameSwitched(d, mid, id);
    }
  }

  /** What a success means without any hypothesis: all links are switched to the release. */
  lemma SuccessSwitches(d: Disk, t: Turn)
    requires Allowed(d, t) && t.answer == Success
    ensures AfterTurn(d, t).links == Switched(d, t.id) && t.id in KeptReleases(AfterTurn(d, t))
  {
    hide Apply, Run, PublishScript, PruneScript, Switched, KeptReleases, Thinned;
    var script := PublishScript(d, t.id).steps;
    var steps := PublishSteps(d, t.id, t.order);
    var mid := Run(d, script);
    ScriptSwitches(d, t.id);
    var k := if t.cut <= |steps| then t.cut else |steps|;
    assert steps[..|steps|] == steps;
    var more := steps[|script|..k];
    assert steps[..k] == script + more;
    RunAppend(d, script, more);
    PruneDiscards(mid, t.order);
    assert forall s <- more :: s in PruneScript(mid, t.order).steps;
    DiscardingRunThins(mid, more);
    ThinnedLinks(mid, Run(mid, more));
    SwitchedKeeps(d, AfterTurn(d, t), t.id);
  }

  lemma ThinnedLinks(d: Disk, e: Disk)
    requires Thinned(d, e)
    ensures e.links == d.links
  {
  }

  /** What a success means: when it is answered, the release is served, and all links are switched to it. */
  lemma SuccessServes(book: Book, d: Disk, t: Turn)
    requires Inv(d, book) && NamesFixed(book, d, t.id) && Allowed(d, t) && t.answer == Success
    ensures Served(AfterTurn(d, t), t.id) && AfterTurn(d, t).links == Switched(d, t.id)
  {
    hide Apply, Run, PublishScript, PruneScript, NamesFixed, Inv, Served, Switched;
    var script := PublishScript(d, t.id).steps;
    var steps := PublishSteps(d, t.id, t.order);
    var prune := steps[|script|..];
    assert steps == script + prune;
    PublishEnds(book, d, t.id);
    var mid := Run(d, script);
    var k := if t.cut <= |steps| then t.cut else |steps|;
    assert steps[..|steps|] == steps;
    CutRun(d, script, prune, k);
    PublishedCut(d, mid, t.id, t.order, prune, k - |script|);
    assert script[..|script|] == script && prune[..0] == [];
    RunEmpty(mid);
  }

  lemma PublishedCut(d: Disk, mid: Disk, id: PlanId, order: ScanOrder, prune: seq<Step>, k: nat)
    requires Published(d, mid, id) && (prune == [] || prune == PruneScript(mid, order).steps) && k <= |prune|
    ensures var e := Run(mid, prune[..k]); Served(e, id) && e.links == Switched(d, id)
  {
    hide Apply, Run, PruneScript, Discarding;
    PruneDiscards(mid, order);
    DiscardingRunThins(mid, prune[..k]);
    assert id in KeptReleases(mid) by { assert mid.links[Current] == id; }
    ThinningKeepsServed(mid, Run(mid, prune[..k]), id);
  }

  lemma {:induction false} CollectPrefix(d: Disk, id: PlanId, artifacts: seq<ArtifactRecord>, i: nat)
    requires i <= |artifacts|
    ensures CollectScript(d, id, artifacts[..i]).steps <= CollectScript(d, id, artifacts).steps
    ensures !CollectScript(d, id, artifacts[..i]).ok ==>
        CollectScript(d, id, artifacts) == CollectScript(d, id, artifacts[..i])
  {
    if i < |artifacts| {
      var before := artifacts[..|artifacts| - 1];
      assert before[..i] == artifacts[..i];
      CollectPrefix(d, id, before, i);
    } else {
      assert artifacts[..i] == artifacts;
    }
  }

  lemma {:induction false} MovePrefix(id: PlanId, files: seq<string>, i: nat)
    requires i <= |files|
    ensures MoveSteps(id, files[..i]) <= MoveSteps(id, files)
  {
    if i < |files| {
      var before := files[..|files| - 1];
      assert before[..i] == files[..i];
      MovePrefix(id, before, i);
    } else {
      assert files[..i] == files;
    }
  }

  /** Calls that work on a staging directory only. */
  predicate StagingOnly(s: Step) {
    s.ClearStaging? || s.MakeStaging? || s.StagePackage? || s.SignPackage? || s.BuildDatabases? || s.SignFile?
        || s.WriteManifest?
  }

  lemma {:induction false} StagingOnlyRun(d: Disk, steps: seq<Step>)
    requires forall s <- steps :: StagingOnly(s)
    ensures Run(d, steps) == d.(staging := Run(d, steps).staging)
  {
    if |steps| > 0 {
      StagingOnlyRun(d, steps[..|steps| - 1]);
      StagingOnlyStep(Run(d, steps[..|steps| - 1]), steps[|steps| - 1]);
    }
  }

  lemma StagingOnlyStep(d: Disk, s: Step)
    requires StagingOnly(s)
    ensures Apply(d, s) == d.(staging := Apply(d, s).staging)
  {
  }

  /** Issuing a whole list and then following a script is following the two in a row. */
  lemma FollowsAfter(first: seq<Step>, steps: seq<Step>, rest: Script, ok: bool, interrupted: bool)
    requires Follows(steps, rest, ok, interrupted)
    ensures Follows(first + steps, Script(first + rest.steps, rest.ok), ok, interrupted)
  {
  }

  class Signer {
    var disk: Disk
    /** Some call failed, or the machine stopped at it. */
    var interrupted: bool
    /** The result files, by plan: whether the plan was published. */
    var outbox: map<PlanId, bool>
    ghost var log: seq<Step>

    constructor (disk: Disk)
      ensures this.disk == disk && !interrupted && outbox == map[] && log == []
    {
      this.disk, interrupted, outbox, log := disk, false, map[], [];
    }

    /** One file-system call. It fails when it does not find what it works on, and may fail for any other reason. */
    method Do(s: Step) returns (ok: bool)
      requires !interrupted
      modifies `disk, `interrupted, `log
      ensures ok ==> Enabled(old(disk), s) && disk == Apply(old(disk), s) && log == old(log) + [s]
      ensures !ok ==> disk == old(disk) && log == old(log)
      ensures interrupted == !ok
    {
      ok := *;
      if ok && Enabled(disk, s) {
        disk := Apply(disk, s);
        log := log + [s];
      } else {
        ok, interrupted := false, true;
      }
    }

    /** Issue a list of calls that does not depend on what the calls before it did. */
    method DoAll(list: seq<Step>) returns (ok: bool, ghost steps: seq<Step>)
      requires !interrupted
      modifies `disk, `interrupted, `log
      ensures log == old(log) + steps && disk == Run(old(disk), steps)
      ensures Follows(steps, Script(list, true), ok, interrupted) && (ok ==> !interrupted)
    {
      hide Apply;
      ghost var d := disk;
      ok, steps := true, [];
      for i := 0 to |list|
        invariant ok && !interrupted && steps == list[..i]
        invariant log == old(log) + steps && disk == Run(d, steps)
      {
        ok := Do(list[i]);
        if !ok { return; }
        steps := steps + [list[i]];
        assert steps[..|steps| - 1] == list[..i];
      }
    }

    /** Reuse what is published, stage and sign the rest. */
    method Collect(id: PlanId, ghost d: Disk)
        returns (ok: bool, newFiles: seq<string>, paths: seq<(string, PackageFile)>, ghost steps: seq<Step>)
      requires !interrupted && disk == d.(staging := disk.staging)
      modifies `disk, `interrupted, `log
      ensures log == old(log) + steps && disk == Run(old(disk), steps) && disk == d.(staging := disk.staging)
      ensures Follows(steps, CollectScript(d, id, id.plan.artifacts), ok, interrupted) && (ok ==> !interrupted)
      ensures ok ==> newFiles == NewFiles(d, id.plan.artifacts) && paths == PackagePaths(d, id, id.plan.artifacts)
    {
      hide Apply, Run, Reusable, Delivered, Verified;
      var artifacts := id.plan.artifacts;
      ok, newFiles, paths, steps := true, [], [], [];
      RunEmpty(disk);
      for i := 0 to |artifacts|
        invariant ok && !interrupted
        invariant log == old(log) + steps && disk == Run(old(disk), steps) && disk == d.(staging := disk.staging)
        invariant CollectScript(d, id, artifacts[..i]) == Script(steps, true)
        invariant newFiles == NewFiles(d, artifacts[..i]) && paths == PackagePaths(d, id, artifacts[..i])
      {
        var a := artifacts[i];
        assert artifacts[..i + 1][..i] == artifacts[..i];
        CollectPrefix(d, id, artifacts, i + 1);
        SameAnswers(d, disk, id, a);
        if Reusable(disk, a) {
          ok := Verified(disk, a.file);
          if !ok { return; }
          paths := paths + [(a.file, disk.hot[a.file])];
        } else if Delivered(disk, id, a) {
          var content := disk.inbox[id].files[a.file];
          ghost var pair;
          ok, pair := StageAndSign(id, a.file, content);
          RunAppend(old(disk), steps, pair);
          steps := steps + pair;
          if !ok { return; }
          paths, newFiles := paths + [(a.file, content)], newFiles + [a.file];
        } else {
          ok := false;
          return;
        }
      }
      assert artifacts[..|artifacts|] == artifacts;
    }

    method StageAndSign(id: PlanId, file: string, content: PackageFile) returns (ok: bool, ghost steps: seq<Step>)
      requires !interrupted
      modifies `disk, `interrupted, `log
      ensures log == old(log) + steps && disk == Run(old(disk), steps)
      ensures Follows(steps, Script([StagePackage(id, file, content), SignPackage(id, file)], true), ok, interrupted)
      ensures disk == old(disk).(staging := disk.staging)
      ensures ok ==> !interrupted
    {
      ghost var d := disk;
      ok := Do(StagePackage(id, file, content));
      if !ok { steps := []; return; }
      RunOne(d, StagePackage(id, file, content));
      ghost var mid := disk;
      ok := Do(SignPackage(id, file));
      if !ok { steps := [StagePackage(id, file, content)]; return; }
      steps := [StagePackage(id, file, content), SignPackage(id, file)];
      RunOne(mid, SignPackage(id, file));
      RunAppend(d, [StagePackage(id, file, content)], [SignPackage(id, file)]);
    }

    /** Use the keyring package that is published, or build and sign it. */
    method ProvideKeyring(id: PlanId, ghost d: Disk) returns (ok: bool, built: bool, ghost steps: seq<Step>)
      requires !interrupted && disk == d.(staging := disk.staging)
      modifies `disk, `interrupted, `log
      ensures log == old(log) + steps && disk == Run(old(disk), steps) && disk == d.(staging := disk.staging)
      ensures Follows(steps, KeyringScript(d, id), ok, interrupted) && (ok ==> !interrupted)
      ensures ok ==> built == !KeyringFound(d)
    {
      hide Apply;
      var file := disk.keyring.record.file;
      if file in disk.hot && file in disk.signatures && disk.hot[file] == disk.keyring.file {
        ok, built, steps := Verified(disk, file), false, [];
        assert log + [] == log;
      } else {
        built := true;
        ok, steps := StageAndSign(id, file, disk.keyring.file);
      }
    }

    /** Start with an empty staging directory. */
    method Open(id: PlanId) returns (ok: bool, ghost steps: seq<Step>)
      requires !interrupted
      modifies `disk, `interrupted, `log
      ensures log == old(log) + steps && disk == Run(old(disk), steps) && disk == old(disk).(staging := disk.staging)
      ensures Follows(steps, Script(OpenSteps(old(disk), id), true), ok, interrupted) && (ok ==> !interrupted)
    {
      hide Apply, Run;
      var open := if id in disk.staging then [ClearStaging(id), MakeStaging(id)] else [MakeStaging(id)];
      assert open == OpenSteps(disk, id);
      ghost var d := disk;
      ok, steps := DoAll(open);
      StagingOnlyRun(d, steps);
    }

    method Gather(id: PlanId)
        returns (ok: bool, newFiles: seq<string>, paths: seq<(string, PackageFile)>, ghost steps: seq<Step>)
      requires !interrupted
      modifies `disk, `interrupted, `log
      ensures log == old(log) + steps && disk == Run(old(disk), steps)
      ensures Follows(steps, GatherScript(old(disk), id), ok, interrupted) && (ok ==> !interrupted)
      ensures ok ==> disk == old(disk).(staging := disk.staging)
      ensures ok ==> newFiles == FilesToMove(old(disk), id) && paths == AllPaths(old(disk), id)
    {
      hide Apply, Run, OpenSteps, CollectScript, KeyringScript, NewFiles, PackagePaths, KeyringFound, Verified,
          Reusable;
      ghost var d := disk;
      newFiles, paths := [], [];
      ghost var open, more, last;
      ok, open := Open(id);
      steps := open;
      if !ok { return; }
      ok, newFiles, paths, more := Collect(id, d);
      RunAppend(d, open, more);
      FollowsAfter(open, more, CollectScript(d, id, id.plan.artifacts), ok, interrupted);
      steps := open + more;
      if !ok {
        GatherCut(d, id, steps, interrupted);
        return;
      }
      var built;
      ok, built, last := ProvideKeyring(id, d);
      RunAppend(d, open + more, last);
      FollowsAfter(open + more, last, KeyringScript(d, id), ok, interrupted);
      steps := open + more + last;
      paths := paths + [(disk.keyring.record.file, disk.keyring.file)];
      newFiles := newFiles + if built then [disk.keyring.record.file] else [];
    }

    /** The database contents the plan calls for, collected record by record. */
    method Expect(artifacts: seq<ArtifactRecord>, keyring: ArtifactRecord)
        returns (expected: map<string, (string, string)>)
      ensures expected == ExpectedEntries(artifacts, keyring)
    {
      expected := map[];
      for i := 0 to |artifacts|
        invariant expected == PlannedEntries(artifacts[..i])
      {
        assert artifacts[..i + 1][..i] == artifacts[..i];
        expected := expected[artifacts[i].packageName := (artifacts[i].packageVersion, artifacts[i].file)];
      }
      assert artifacts[..|artifacts|] == artifacts;
      expected := expected[KEYRING_NAME := (keyring.packageVersion, keyring.file)];
    }

    /** Move each new package and its signature into the architecture directory. */
    method Move(id: PlanId, files: seq<string>) returns (ok: bool, ghost steps: seq<Step>)
      requires !interrupted
      modifies `disk, `interrupted, `log
      ensures log == old(log) + steps && disk == Run(old(disk), steps)
      ensures Follows(steps, Script(MoveSteps(id, files), true), ok, interrupted) && (ok ==> !interrupted)
    {
      hide Apply, Run;
      ok, steps := true, [];
      assert Run(disk, []) == disk by { RunEmpty(disk); }
      for i := 0 to |files|
        invariant ok && !interrupted && steps == MoveSteps(id, files[..i])
        invariant log == old(log) + steps && disk == Run(old(disk), steps)
      {
        assert files[..i + 1][..i] == files[..i];
        MovePrefix(id, files, i + 1);
        ghost var pair;
        ok, pair := DoAll([MovePackage(id, files[i]), MoveSignature(id, files[i])]);
        RunAppend(old(disk), steps, pair);
        steps := steps + pair;
        if !ok { return; }
      }
      assert files[..|files|] == files;
    }

    method Prepare(id: PlanId) returns (ok: bool, ghost steps: seq<Step>)
      requires !interrupted
      modifies `disk, `interrupted, `log
      ensures log == old(log) + steps && disk == Run(old(disk), steps)
      ensures Follows(steps, PrepareScript(old(disk), id), ok, interrupted) && (ok ==> !interrupted)
    {
      hide Apply, Run, GatherScript, FilesToMove, AllPaths, RepoAdd, MoveSteps, ExpectedEntries;
      ghost var d := disk;
      ghost var gathered, more;
      var newFiles, paths;
      ok, newFiles, paths, gathered := Gather(id);
      steps := gathered;
      if !ok { return; }
      var entries := RepoAdd(paths);
      if entries.None? { ok := false; return; }
      var keyring := disk.keyring.record;
      ok, more := DoAll([BuildDatabases(id, entries.value)]);
      RunAppend(d, steps, more);
      steps := gathered + more;
      if !ok { return; }
      var expected := Expect(id.plan.artifacts, keyring);
      if entries.value != expected { ok := false; return; }
      var database := PackageList(expected);
      var manifest := PublishManifest(id, id.plan.artifacts, keyring, database, database);
      ok, more := DoAll([SignFile(id, Database, DatabaseSig), SignFile(id, FilesDatabase, FilesDatabaseSig),
                         WriteManifest(id, manifest), SignFile(id, Manifest, ManifestSig)]);
      RunAppend(d, steps, more);
      steps := gathered + [BuildDatabases(id, expected)] + more;
      if !ok { return; }
      assert steps == gathered + IndexAndSeal(d, id);
      ok, more := Move(id, newFiles);
      RunAppend(d, steps, more);
      steps := steps + more;
    }

    method SwapLinks(targets: seq<(LinkName, PlanId)>) returns (ok: bool, ghost steps: seq<Step>)
      requires !interrupted && DistinctLinks(targets)
      modifies `disk, `interrupted, `log
      ensures log == old(log) + steps && disk == Run(old(disk), steps)
      ensures Follows(steps, Script(LinkSteps(old(disk), targets), true), ok, interrupted) && (ok ==> !interrupted)
    {
      hide Apply, Run;
      ghost var d := disk;
      ok, steps := true, [];
      RunEmpty(d);
      for i := 0 to |targets|
        invariant ok && !interrupted && steps == LinkSteps(d, targets[..i])
        invariant log == old(log) + steps && disk == Run(d, steps)
        invariant forall t <- targets[i..] :: t.0 in disk.temporaries <==> t.0 in d.temporaries
      {
        assert targets[..i + 1][..i] == targets[..i] && targets[i] in targets[i..];
        LinkStepsPrefix(d, targets, i + 1);
        ghost var more;
        ok, more := AtomicLink(targets[i].0, targets[i].1);
        RunAppend(d, steps, more);
        steps := steps + more;
        if !ok { return; }
      }
      assert targets[..|targets|] == targets;
    }

    /** Check everything the release's manifest names, then swap the links one at a time. */
    method Activate(id: PlanId) returns (ok: bool, ghost steps: seq<Step>)
      requires !interrupted
      modifies `disk, `interrupted, `log
      ensures log == old(log) + steps && disk == Run(old(disk), steps)
      ensures Follows(steps, ActivateScript(old(disk), id), ok, interrupted) && (ok ==> !interrupted)
    {
      hide Apply, Run, LinkSteps, Activatable;
      steps := [];
      RunEmpty(disk);
      ok := Check(id);
      if !ok { return; }
      var current := CurrentRelease(disk);
      var targets := [(DbSig, id), (FilesSig, id), (Files, id), (Db, id)];
      targets := targets + if current.Some? && current.value != id then [(Previous, current.value)] else [];
      targets := targets + [(Current, id)];
      ok, steps := SwapLinks(targets);
    }

    method Check(id: PlanId) returns (ok: bool)
      ensures ok == Activatable(disk, id)
    {
      ok := false;
      if id !in disk.releases { return; }
      var r := disk.releases[id];
      if !(SignedFile(r, Manifest, ManifestSig) && r[Manifest].ManifestText?) { return; }
      var manifest := r[Manifest].manifest;
      if manifest.planId != id { return; }
      if !(SignedFile(r, Database, DatabaseSig) && r[Database] == manifest.database) { return; }
      if !(SignedFile(r, FilesDatabase, FilesDatabaseSig) && r[FilesDatabase] == manifest.filesDatabase) { return; }
      var records := manifest.artifacts + [manifest.keyring];
      for i := 0 to |records|
        invariant forall a <- records[..i] ::
            a.file in disk.hot && disk.hot[a.file].size == a.size && Verified(disk, a.file)
      {
        var a := records[i];
        if !(a.file in disk.hot && disk.hot[a.file].size == a.size && Verified(disk, a.file)) {
          assert a in records;
          return;
        }
      }
      assert records[..|records|] == records;
      ok := true;
    }

    /** Replace a link by renaming a fresh temporary link over it. */
    method AtomicLink(link: LinkName, id: PlanId) returns (ok: bool, ghost steps: seq<Step>)
      requires !interrupted
      modifies `disk, `interrupted, `log
      ensures log == old(log) + steps && disk == Run(old(disk), steps)
      ensures Follows(steps, Script(AtomicLinkSteps(old(disk), link, id), true), ok, interrupted)
          && (ok ==> !interrupted)
      ensures ok ==> disk.temporaries == old(disk).temporaries - {link}
    {
      hide Apply, Run;
      ghost var d := disk;
      var calls := (if link in disk.temporaries then [DropTemporary(link)]
          else []) + [MakeTemporary(link, id), SwapLink(link)];
      ok, steps := DoAll(calls);
      OneLink(d, d, link, id);
    }

    /** List a directory in whatever order the operating system gives. */
    method List<T(==)>(names: set<T>) returns (list: seq<T>)
      ensures NoRepeats(list) && forall x :: x in names <==> x in list
    {
      list := [];
      var rest := names;
      while rest != {}
        invariant NoRepeats(list) && rest <= names && forall x :: x in list <==> x in names && x !in rest
      {
        var x :| x in rest;
        list, rest := list + [x], rest - {x};
      }
    }

    method RemoveTree(id: PlanId, inside: seq<ReleaseFile>) returns (ok: bool, ghost steps: seq<Step>)
      requires !interrupted && id in disk.releases
      modifies `disk, `interrupted, `log
      ensures log == old(log) + steps && disk == Run(old(disk), steps)
      ensures Follows(steps, Script(UnlinkSteps(old(disk).releases[id], id, inside) + [RemoveReleaseDirectory(id)],
          true), ok, interrupted)
      ensures ok ==> !interrupted
    {
      hide Apply, Run;
      ghost var d := disk;
      var r := disk.releases[id];
      var calls := [];
      for i := 0 to |inside|
        invariant calls == UnlinkSteps(r, id, inside[..i])
      {
        assert inside[..i + 1][..i] == inside[..i];
        if inside[i] in r { calls := calls + [UnlinkReleaseFile(id, inside[i])]; }
      }
      assert inside[..|inside|] == inside;
      ok, steps := DoAll(calls + [RemoveReleaseDirectory(id)]);
    }

    method RemoveReleases(keep: set<PlanId>, ids: seq<PlanId>, inside: seq<ReleaseFile>, ghost order: ScanOrder)
      returns (ok: bool, ghost steps: seq<Step>)
      requires !interrupted && keep == KeptReleases(disk) && order.inside == inside
      requires NoRepeats(ids) && (forall id <- ids :: id in disk.releases) && NoRepeats(inside)
      requires forall f :: f in inside
      modifies `disk, `interrupted, `log
      ensures log == old(log) + steps && disk == Run(old(disk), steps)
      ensures Follows(steps, Script(RemoveReleasesSteps(old(disk), order, ids), true), ok, interrupted)
      ensures ok ==> !interrupted && disk == old(disk).(releases := disk.releases)
    {
      hide Apply, Run, KeptReleases, UnlinkSteps;
      ghost var d := disk;
      ok, steps := true, [];
      RunEmpty(d);
      RemovalOnlyReleases(d, order, ids);
      for i := 0 to |ids|
        invariant ok && !interrupted && steps == RemoveReleasesSteps(d, order, ids[..i])
        invariant log == old(log) + steps && disk == Run(d, steps)
      {
        var id := ids[i];
        assert ids[..i + 1][..i] == ids[..i];
        RemovePrefix(d, order, ids, i + 1);
        NotYetRemoved(d, order, ids, i);
        if id !in keep {
          ghost var more;
          ok, more := RemoveTree(id, inside);
          RunAppend(d, steps, more);
          steps := steps + more;
          if !ok { return; }
        }
      }
      assert ids[..|ids|] == ids;
    }

    method RemoveEntries(keepFiles: set<string>, entries: seq<Entry>, ghost d: Disk)
        returns (ok: bool, ghost steps: seq<Step>)
      requires !interrupted && keepFiles == KeptFiles(d)
      modifies `disk, `interrupted, `log
      ensures log == old(log) + steps && disk == Run(old(disk), steps)
      ensures Follows(steps, Script(RemoveEntriesSteps(d, entries), true), ok, interrupted) && (ok ==> !interrupted)
    {
      hide Apply, Run, KeptFiles;
      ok, steps := true, [];
      RunEmpty(disk);
      for i := 0 to |entries|
        invariant ok && !interrupted && steps == RemoveEntriesSteps(d, entries[..i])
        invariant log == old(log) + steps && disk == Run(old(disk), steps)
      {
        assert entries[..i + 1][..i] == entries[..i];
        EntriesPrefix(d, entries, i + 1);
        if entries[i].file !in keepFiles {
          ghost var more;
          ok, more := DoAll([if entries[i].Package? then RemovePackage(entries[i].file)
              else RemoveSignature(entries[i].file)]);
          RunAppend(old(disk), steps, more);
          steps := steps + more;
          if !ok { return; }
        }
      }
      assert entries[..|entries|] == entries;
    }

    /** The package files that the manifests of the kept releases name, or none if one cannot be read. */
    method Referenced(keep: set<PlanId>) returns (ok: bool, files: set<string>)
      requires keep == KeptReleases(disk)
      ensures ok == KeptReadable(disk)
      ensures ok ==> files == KeptFiles(disk)
    {
      hide KeptReleases;
      files := {};
      var rest := keep;
      while rest != {}
        invariant rest <= keep && forall id <- keep - rest :: Committed(disk, id)
        invariant files == set id, file | id in keep - rest && id in disk.releases
            && file in ReferencedFiles(disk.releases[id]) :: file
      {
        var id :| id in rest;
        if !Committed(disk, id) { ok := false; return; }
        ghost var done := keep - rest;
        rest := rest - {id};
        assert keep - rest == done + {id};
        files := files + ReferencedFiles(disk.releases[id]);
      }
      assert keep - rest == keep;
      ok := true;
    }

    /** Keep only the releases of `current` and `previous` and the packages they reference. */
    method Prune() returns (ok: bool, ghost order: ScanOrder, ghost steps: seq<Step>)
      requires !interrupted
      modifies `disk, `interrupted, `log
      ensures log == old(log) + steps && disk == Run(old(disk), steps)
      ensures Follows(steps, PruneScript(old(disk), order), ok, interrupted) && (ok ==> !interrupted)
      ensures Lists(old(disk), order)
    {
      hide Apply, Run, KeptFiles, RemoveReleasesSteps, RemoveEntriesSteps;
      ghost var d := disk;
      RunEmpty(d);
      steps := [];
      var ids := List(disk.releases.Keys);
      var inside := List({Database, DatabaseSig, FilesDatabase, FilesDatabaseSig, Manifest, ManifestSig});
      forall f: ReleaseFile ensures f in inside { AllReleaseFiles(f); }
      var names := (set file | file in disk.hot :: Package(file)) + (set file | file in disk.signatures ::
          Signature(file));
      var entries := List(names);
      order := ScanOrder(ids, inside, entries);
      var keep := {};
      if Current in disk.links { keep := keep + {disk.links[Current]}; }
      if Previous in disk.links { keep := keep + {disk.links[Previous]}; }
      assert keep == KeptReleases(d);
      if keep == {} { ok := true; return; }
      var keepFiles;
      ok, keepFiles := Referenced(keep);
      if !ok { return; }
      ghost var more;
      ok, steps := RemoveReleases(keep, ids, inside, order);
      if !ok { return; }
      ok, more := RemoveEntries(keepFiles, entries, d);
      RunAppend(d, steps, more);
      steps := steps + more;
    }

    /** Publish a plan. Pruning after a fresh commit may fail without failing the publish; reading the manifest's digest
        for the answer may fail at the very end. */
    method Publish(id: PlanId) returns (ok: bool, ghost order: ScanOrder, ghost steps: seq<Step>)
      requires !interrupted
      modifies `disk, `interrupted, `log
      ensures log == old(log) + steps && disk == Run(old(disk), steps)
      ensures steps <= PublishSteps(old(disk), id, order)
      ensures ok ==> PublishScript(old(disk), id).ok && PublishScript(old(disk), id).steps <= steps
      ensures !interrupted ==> ok == PublishScript(old(disk), id).ok && steps == PublishSteps(old(disk), id, order)
    {
      hide Apply, Run, PrepareScript, ActivateScript, PruneScript, ReadablePlan;
      ghost var d := disk;
      order, steps := ScanOrder([], [], []), [];
      RunEmpty(d);
      ok := Read(id);
      if !ok { return; }
      if Committed(disk, id) {
        ok, steps := Activate(id);
        var read := *;
        if ok && !read { ok, interrupted := false, true; }
        return;
      }
      ghost var more;
      ok, steps := Prepare(id);
      if !ok { return; }
      ghost var prepared := steps;
      PrepareKeepsReleases(d, id);
      ok := Do(Commit(id));
      PublishPrefix(d, id, order);
      if !ok { return; }
      steps := prepared + [Commit(id)];
      CommitRun(d, prepared, id);
      ok, more := Activate(id);
      RunAppend(d, steps, more);
      steps := prepared + [Commit(id)] + more;
      if !ok { return; }
      ghost var published := steps;
      var pruned;
      pruned, order, more := Prune();
      RunAppend(d, steps, more);
      steps := published + more;
      var read := *;
      if !read { ok, interrupted := false, true; }
    }

    /** Switch back to the previous release. */
    method Rollback() returns (ok: bool, ghost steps: seq<Step>)
      requires !interrupted
      modifies `disk, `interrupted, `log
      ensures log == old(log) + steps && disk == Run(old(disk), steps)
      ensures Follows(steps, RollbackScript(old(disk)), ok, interrupted) && (ok ==> !interrupted)
    {
      hide Apply, Run, ActivateScript;
      RunEmpty(disk);
      ok, steps := false, [];
      if Previous in disk.links {
        ok, steps := Activate(disk.links[Previous]);
      }
    }

    /** Publish one plan and write its result, unless the machine stops first. An error becomes a failed result. A calm
        turn is one in which no call failed and nothing stopped: its answer is a success exactly when the plan can be
        published. */
    method TakeTurn(id: PlanId) returns (stopped: bool, ghost t: Turn, ghost calm: bool)
      requires !interrupted
      modifies this
      ensures t.id == id && Allowed(old(disk), t) && disk == AfterTurn(old(disk), t)
          && outbox == WithAnswer(old(outbox), t)
      ensures (stopped <==> t.answer == Silent) && (!stopped ==> !interrupted)
      ensures calm ==> t.answer == if PublishScript(old(disk), id).ok then Success else Failure
    {
      hide Apply, Run, PublishSteps, PublishScript, AfterTurn, Allowed;
      ghost var d := disk;
      ghost var order, steps;
      var ok;
      ok, order, steps := Publish(id);
      calm := !interrupted;
      var halted := *;
      stopped := interrupted && halted;
      t := Turn(id, order, |steps|, if stopped then Silent else if ok then Success else Failure);
      TurnTaken(d, t, steps, ok);
      if stopped { return; }
      interrupted := false;
      outbox := outbox[id := ok];
    }

    /** Publish every plan of the inbox that has no result yet. What happens is a list of turns. Where file names fix
        contents, a success means that the release is served when it is written, and wherever the signer stops, what
        clients see is safe. */
    method ProcessInbox() returns (stopped: bool, ghost turns: seq<Turn>, ghost calm: seq<bool>)
      requires !interrupted
      modifies this
      ensures TakesTurns(old(disk), old(outbox), turns) && disk.inbox == old(disk).inbox
      ensures disk == DiskAfter(old(disk), turns) && outbox == OutboxAfter(old(outbox), turns)
      ensures stopped <==> |turns| > 0 && turns[|turns| - 1].answer == Silent
      ensures CalmAnswers(old(disk), turns, calm)
      ensures forall id <- old(outbox) :: id in outbox && outbox[id] == old(outbox)[id]
      ensures !stopped ==> !interrupted && forall id <- disk.inbox :: id in outbox
      ensures forall book :: Inv(old(disk), book) && InboxNamed(book, old(disk)) ==>
                               Inv(disk, book) && SuccessesServe(old(disk), turns)
    {
      hide Inv, Served, AfterTurn, Allowed, TakesTurns, DiskAfter, OutboxAfter, SuccessesServe, InboxNamed,
          PublishScript, CalmAnswers;
      ghost var d0, outbox0 := disk, outbox;
      turns, calm := [], [];
      NoTurns(d0, outbox0);
      NoAnswers(d0);
      var entries := List(disk.inbox.Keys);
      for i := 0 to |entries|
        invariant !interrupted && TakesTurns(d0, outbox0, turns)
        invariant disk == DiskAfter(d0, turns) && outbox == OutboxAfter(outbox0, turns)
        invariant forall t <- turns :: t.answer != Silent
        invariant CalmAnswers(d0, turns, calm)
        invariant forall id <- outbox0 :: id in outbox && outbox[id] == outbox0[id]
        invariant forall id <- entries[..i] :: id in outbox
      {
        var id := entries[i];
        if id !in outbox {
          ghost var t, undisturbed;
          stopped, t, undisturbed := TakeTurn(id);
          OneMoreTurn(d0, outbox0, turns, t);
          OneMoreAnswer(d0, turns, calm, t, undisturbed);
          turns, calm := turns + [t], calm + [undisturbed];
          if stopped {
            TurnsAreSafe(d0, outbox0, turns);
            return;
          }
        }
      }
      TurnsAreSafe(d0, outbox0, turns);
      stopped := false;
    }

    method Read(id: PlanId) returns (ok: bool)
      ensures ok == ReadablePlan(disk, id)
    {
      ok := id in disk.inbox && disk.inbox[id].plan == Some(id.plan) && ValidPlan(id.plan);
    }
  }

  /** What a publish did is a turn. */
  lemma TurnTaken(d: Disk, t: Turn, steps: seq<Step>, ok: bool)
    requires steps <= PublishSteps(d, t.id, t.order) && t.cut == |steps|
    requires ok ==> PublishScript(d, t.id).ok && PublishScript(d, t.id).steps <= steps
    requires t.answer == Success ==> ok
    ensures AfterTurn(d, t) == Run(d, steps) && Allowed(d, t)
  {
    hide Apply, Run, PublishSteps, PublishScript;
    assert steps == PublishSteps(d, t.id, t.order)[..|steps|];
  }

  lemma OneMoreTurn(d: Disk, outbox: map<PlanId, bool>, turns: seq<Turn>, t: Turn)
    requires TakesTurns(d, outbox, turns) && forall other <- turns :: other.answer != Silent
    requires t.id in d.inbox && t.id !in OutboxAfter(outbox, turns) && Allowed(DiskAfter(d, turns), t)
    ensures TakesTurns(d, outbox, turns + [t])
    ensures DiskAfter(d, turns + [t]) == AfterTurn(DiskAfter(d, turns), t)
    ensures OutboxAfter(outbox, turns + [t]) == WithAnswer(OutboxAfter(outbox, turns), t)
  {
    hide Allowed, AfterTurn, WithAnswer, TurnAt;
    var all := turns + [t];
    assert all[..|turns|] == turns;
    forall i | 0 <= i < |all| ensures TurnAt(d, outbox, all, i) {
      if i < |turns| { EarlierTurn(d, outbox, turns, t, i); } else { LastTurn(d, outbox, turns, t); }
    }
  }

  lemma EarlierTurn(d: Disk, outbox: map<PlanId, bool>, turns: seq<Turn>, t: Turn, i: nat)
    requires i < |turns| && TurnAt(d, outbox, turns, i)
    ensures TurnAt(d, outbox, turns + [t], i)
  {
    hide Allowed, AfterTurn, DiskAfter, OutboxAfter;
    assert (turns + [t])[..i] == turns[..i];
  }

  lemma LastTurn(d: Disk, outbox: map<PlanId, bool>, turns: seq<Turn>, t: Turn)
    requires t.id in d.inbox && t.id !in OutboxAfter(outbox, turns) && Allowed(DiskAfter(d, turns), t)
    ensures TurnAt(d, outbox, turns + [t], |turns|)
  {
    hide Allowed, AfterTurn, DiskAfter, OutboxAfter;
    assert (turns + [t])[..|turns|] == turns;
  }

  lemma FewerTurns(d: Disk, outbox: map<PlanId, bool>, turns: seq<Turn>)
    requires TakesTurns(d, outbox, turns) && |turns| > 0
    ensures TakesTurns(d, outbox, turns[..|turns| - 1])
  {
    hide Allowed, AfterTurn, DiskAfter, OutboxAfter;
    var fewer := turns[..|turns| - 1];
    forall i | 0 <= i < |fewer| ensures TurnAt(d, outbox, fewer, i) {
      assert TurnAt(d, outbox, turns, i);
      assert fewer[..i] == turns[..i];
    }
  }

  /** Every calm turn answers a success exactly when its plan can be published then. */
  ghost predicate CalmAnswers(d: Disk, turns: seq<Turn>, calm: seq<bool>) {
    && |calm| == |turns|
    && forall i :: 0 <= i < |turns| && calm[i] ==>
         turns[i].answer == if PublishScript(DiskAfter(d, turns[..i]), turns[i].id).ok then Success else Failure
  }

  lemma NoAnswers(d: Disk)
    ensures CalmAnswers(d, [], [])
  {
  }

  lemma OneMoreAnswer(d: Disk, turns: seq<Turn>, calm: seq<bool>, t: Turn, undisturbed: bool)
    requires CalmAnswers(d, turns, calm)
    requires undisturbed ==> t.answer == if PublishScript(DiskAfter(d, turns), t.id).ok then Success else Failure
    ensures CalmAnswers(d, turns + [t], calm + [undisturbed])
  {
    hide PublishScript, DiskAfter;
    var all, marks := turns + [t], calm + [undisturbed];
    forall i | 0 <= i < |all| && marks[i]
      ensures all[i].answer == if PublishScript(DiskAfter(d, all[..i]), all[i].id).ok then Success else Failure
    {
      assert all[..i] == turns[..i];
      assert turns[..|turns|] == turns;
      if i < |turns| { assert calm[i] && all[i] == turns[i]; }
    }
  }

  ghost predicate InboxNamed(book: Book, d: Disk) {
    forall id <- d.inbox :: NamesFixed(book, d, id)
  }

  /** Each success is answered while its release is served. */
  ghost predicate SuccessesServe(d: Disk, turns: seq<Turn>) {
    forall i :: 0 <= i < |turns| && turns[i].answer == Success ==> Served(DiskAfter(d, turns[..i + 1]), turns[i].id)
  }

  lemma {:induction false} TurnsKeepInbox(d: Disk, turns: seq<Turn>)
    ensures DiskAfter(d, turns).inbox == d.inbox
  {
    hide TurnSteps;
    if |turns| > 0 {
      TurnsKeepInbox(d, turns[..|turns| - 1]);
      var before := DiskAfter(d, turns[..|turns| - 1]);
      KeyringAndInboxStay(before, TurnSteps(before, turns[|turns| - 1]));
    }
  }

  /** Turns leave the inbox alone, and where names fix contents they are safe and successes mean what they say. */
  lemma TurnsAreSafe(d: Disk, outbox: map<PlanId, bool>, turns: seq<Turn>)
    requires TakesTurns(d, outbox, turns)
    ensures DiskAfter(d, turns).inbox == d.inbox
    ensures forall book :: Inv(d, book) && InboxNamed(book, d) ==>
                             Inv(DiskAfter(d, turns), book) && SuccessesServe(d, turns)
  {
    hide TakesTurns, Inv, InboxNamed, SuccessesServe, DiskAfter;
    TurnsKeepInbox(d, turns);
    forall book | Inv(d, book) && InboxNamed(book, d)
      ensures Inv(DiskAfter(d, turns), book) && SuccessesServe(d, turns)
    {
      NamedTurnsAreSafe(book, d, outbox, turns);
    }
  }

  lemma {:induction false} NamedTurnsAreSafe(book: Book, d: Disk, outbox: map<PlanId, bool>, turns: seq<Turn>)
    requires TakesTurns(d, outbox, turns) && Inv(d, book) && InboxNamed(book, d)
    ensures Inv(DiskAfter(d, turns), book) && SuccessesServe(d, turns)
  {
    hide Inv, NamesFixed, Served, AfterTurn, Allowed, TakesTurns, OutboxAfter;
    if |turns| > 0 {
      var n := |turns| - 1;
      FewerTurns(d, outbox, turns);
      NamedTurnsAreSafe(book, d, outbox, turns[..n]);
      var before, t := DiskAfter(d, turns[..n]), turns[n];
      LastTurnFacts(d, outbox, turns);
      TurnsKeepInbox(d, turns[..n]);
      NamesFixedAgain(book, d, before, t.id);
      OneTurnIsSafe(book, before, t);
      assert turns[..n + 1] == turns;
      forall i | 0 <= i < |turns| && turns[i].answer == Success
        ensures Served(DiskAfter(d, turns[..i + 1]), turns[i].id)
      {
        if i < n { assert turns[..n][..i + 1] == turns[..i + 1] && turns[..n][i] == turns[i]; }
      }
    }
  }

  lemma LastTurnFacts(d: Disk, outbox: map<PlanId, bool>, turns: seq<Turn>)
    requires TakesTurns(d, outbox, turns) && |turns| > 0
    ensures var n := |turns| - 1;
            && turns[n].id in d.inbox && turns[n].id !in OutboxAfter(outbox, turns[..n])
            && Allowed(DiskAfter(d, turns[..n]), turns[n])
  {
    hide Allowed, DiskAfter, OutboxAfter;
    assert TurnAt(d, outbox, turns, |turns| - 1);
  }

  lemma OneTurnIsSafe(book: Book, d: Disk, t: Turn)
    requires Inv(d, book) && NamesFixed(book, d, t.id) && Allowed(d, t)
    ensures Inv(AfterTurn(d, t), book) && (t.answer == Success ==> Served(AfterTurn(d, t), t.id))
  {
    hide Apply, Run, PublishSteps, PublishScript, Inv, NamesFixed, Served, Allowed;
    var steps := PublishSteps(d, t.id, t.order);
    var k := if t.cut <= |steps| then t.cut else |steps|;
    assert steps[..|steps|] == steps;
    PublishIsSafe(book, d, t.id, t.order, k);
    if t.answer == Success { SuccessServes(book, d, t); }
  }

  lemma GatherCut(d: Disk, id: PlanId, steps: seq<Step>, interrupted: bool)
    requires var collected := CollectScript(d, id, id.plan.artifacts);
             Follows(steps, Script(OpenSteps(d, id) + collected.steps, collected.ok), false, interrupted)
    ensures Follows(steps, GatherScript(d, id), false, interrupted)
  {
    hide OpenSteps, CollectScript, KeyringScript;
  }

  lemma NamesFixedAgain(book: Book, d: Disk, e: Disk, id: PlanId)
    requires NamesFixed(book, d, id) && e.inbox == d.inbox
    ensures NamesFixed(book, e, id)
  {
    forall a <- id.plan.artifacts ensures Delivered(e, id, a) ==> e.inbox[id].files[a.file] == book(a.file) {
      assert Delivered(e, id, a) == Delivered(d, id, a);
    }
  }

  /** What the signer reads of the published files and of the inbox does not change while it stages. */
  lemma SameAnswers(d: Disk, e: Disk, id: PlanId, a: ArtifactRecord)
    requires e == d.(staging := e.staging)
    ensures Reusable(e, a) == Reusable(d, a) && (Reusable(d, a) ==> a.file in d.hot)
    ensures Delivered(e, id, a) == Delivered(d, id, a)
        && (Delivered(d, id, a) ==> id in d.inbox && a.file in d.inbox[id].files)
    ensures Verified(e, a.file) == Verified(d, a.file)
  {
  }

  lemma PublishPrefix(d: Disk, id: PlanId, order: ScanOrder)
    requires ReadablePlan(d, id) && !Committed(d, id) && PrepareScript(d, id).ok
    ensures PrepareScript(d, id).steps <= PublishSteps(d, id, order)
    ensures !Vacant(d, id) ==> PublishScript(d, id) == Script(PrepareScript(d, id).steps, false)
  {
    hide Apply, Run, PrepareScript, ActivateScript, PruneScript;
  }

  lemma CommitRun(d: Disk, prepared: seq<Step>, id: PlanId)
    ensures Run(d, prepared + [Commit(id)]) == Apply(Run(d, prepared), Commit(id))
  {
    hide Apply;
    assert (prepared + [Commit(id)])[..|prepared|] == prepared;
  }

  lemma {:induction false} MovesStay(id: PlanId, files: seq<string>)
    ensures forall s <- MoveSteps(id, files) :: s.MovePackage? || s.MoveSignature?
  {
    if |files| > 0 { MovesStay(id, files[..|files| - 1]); }
  }

  lemma {:induction false} CollectStays(d: Disk, id: PlanId, artifacts: seq<ArtifactRecord>)
    ensures forall s <- CollectScript(d, id, artifacts).steps :: StagingOnly(s)
  {
    if |artifacts| > 0 { CollectStays(d, id, artifacts[..|artifacts| - 1]); }
  }

  lemma {:induction false} NoRemovalRun(d: Disk, steps: seq<Step>)
    requires forall s <- steps :: StagingOnly(s) || s.MovePackage? || s.MoveSignature?
    ensures Run(d, steps).releases == d.releases
  {
    if |steps| > 0 {
      NoRemovalRun(d, steps[..|steps| - 1]);
      var e, s := Run(d, steps[..|steps| - 1]), steps[|steps| - 1];
      if StagingOnly(s) { StagingOnlyStep(e, s); }
    }
  }

  lemma PrepareKeepsReleases(d: Disk, id: PlanId)
    ensures Run(d, PrepareScript(d, id).steps).releases == d.releases
  {
    hide Apply, Run, RepoAdd, CollectScript, MoveSteps, ExpectedEntries, AllPaths, KeyringFound, FilesToMove;
    CollectStays(d, id, id.plan.artifacts);
    MovesStay(id, FilesToMove(d, id));
    NoRemovalRun(d, PrepareScript(d, id).steps);
  }

  lemma AllReleaseFiles(f: ReleaseFile)
    ensures f in {Database, DatabaseSig, FilesDatabase, FilesDatabaseSig, Manifest, ManifestSig}
  {
    match f
    case Database =>
    case DatabaseSig =>
    case FilesDatabase =>
    case FilesDatabaseSig =>
    case Manifest =>
    case ManifestSig =>
  }

  lemma NotYetRemoved(d: Disk, order: ScanOrder, ids: seq<PlanId>, i: nat)
    requires i < |ids| && NoRepeats(ids) && ids[i] in d.releases && NoRepeats(order.inside)
    requires forall f :: f in order.inside
    ensures var e := Run(d, RemoveReleasesSteps(d, order, ids[..i]));
            ids[i] in e.releases && e.releases[ids[i]] == d.releases[ids[i]]
  {
    hide Apply, Run, RemoveReleasesSteps;
    RemoveReleasesRun(d, order, ids[..i]);
    assert ids[i] !in ids[..i];
  }

  lemma RemovalOnlyReleases(d: Disk, order: ScanOrder, ids: seq<PlanId>)
    requires NoRepeats(ids) && NoRepeats(order.inside) && forall f :: f in order.inside
    ensures var e := Run(d, RemoveReleasesSteps(d, order, ids)); e == d.(releases := e.releases)
  {
    hide Apply, Run, RemoveReleasesSteps;
    RemoveReleasesRun(d, order, ids);
  }

  lemma {:induction false} RemovePrefix(d: Disk, order: ScanOrder, ids: seq<PlanId>, i: nat)
    requires i <= |ids|
    ensures RemoveReleasesSteps(d, order, ids[..i]) <= RemoveReleasesSteps(d, order, ids)
  {
    if i < |ids| {
      var before := ids[..|ids| - 1];
      assert before[..i] == ids[..i];
      RemovePrefix(d, order, before, i);
    } else {
      assert ids[..i] == ids;
    }
  }

  lemma {:induction false} EntriesPrefix(d: Disk, entries: seq<Entry>, i: nat)
    requires i <= |entries|
    ensures RemoveEntriesSteps(d, entries[..i]) <= RemoveEntriesSteps(d, entries)
  {
    if i < |entries| {
      var before := entries[..|entries| - 1];
      assert before[..i] == entries[..i];
      EntriesPrefix(d, before, i);
    } else {
      assert entries[..i] == entries;
    }
  }

  lemma RunEmpty(d: Disk)
    ensures Run(d, []) == d
  {
  }
}
