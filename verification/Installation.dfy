/** The whole installation - reviews, builds, uploads, publishing and signing - as one system, and where everything that
    clients can install comes from. Nothing is assumed of names, digests, answers or time. */
module Installation {
  import opened Protocol
  import opened Store
  import opened Closure
  import opened Graph
  import opened Upload
  import opened Builds
  import opened Planning
  import opened Exchange
  import Review
  import Repository
  import CrashSafety
  import Convergence
  import Committing
  import Signer
  import Reconciling
  import Publishing

  /** What the outside world fixes: the digest, what the signer reads from bytes, and the repository's name. */
  datatype Tools = Tools(sha: Digest, inspect: Inspect, name: string)

  datatype Factory = Factory(desk: Review.Desk, server: Server, disk: Disk)

  datatype Event =
    | Reviewing(review: Review.Event)
    | Building(build: Builds.Event)
    | ReconcileRound(closure: Closure, bases: seq<string>, sources: map<string, nat>)
    | SignerRun(turn: Signer.Turn)
    | RollbackRun(cut: nat)

  ghost function After(t: Tools, f: Factory, e: Event): Factory {
    match e
    case Reviewing(review) => f.(desk := Review.After(f.desk, review))
    case Building(build) =>
      if build.Decided? then f
      else f.(server := f.server.(board := Builds.After(t.sha, Workshop(f.desk.revisions, f.server.board),
          build).board))
    case ReconcileRound(closure, bases, sources) =>
      var server := Reconcile(t.inspect, t.name, f.desk.revisions, closure, bases, sources, f.server);
      f.(server := server, disk := f.disk.(inbox := server.inbox))
    case SignerRun(turn) =>
      if turn.id !in f.disk.inbox || turn.id in f.server.outbox || !Signer.Allowed(f.disk, turn) then f
      else
        var server := f.server.(outbox := Answered(f.server.outbox, turn, f.server.board.now));
        Factory(f.desk, server, Signer.AfterTurn(f.disk, turn))
    case RollbackRun(cut) => f.(disk := RolledBack(f.disk, cut))
  }

  // ---------------------------------------------------------------- the invariant

  /** Every planned artifact is a record of a succeeded build. */
  ghost predicate FromBuilds(b: Board, plan: PublishPlan) {
    forall a <- plan.artifacts :: exists i ::
        0 <= i < |b.builds| && b.builds[i].state == Succeeded && a in b.builds[i].artifacts
  }

  ghost predicate Planned(s: Server, id: PlanId) {
    exists p <- s.publications :: p.plan == id.plan
  }

  /** A manifest lists the artifacts of the plan whose release it is in. */
  ghost predicate ListsPlan(r: Repository.ReleaseDirectory, id: PlanId) {
    Repository.Manifest in r && r[Repository.Manifest].ManifestText? ==>
      r[Repository.Manifest].manifest.artifacts == id.plan.artifacts
  }

  ghost predicate ManifestsListPlans(d: Disk) {
    && (forall id <- d.releases :: ListsPlan(d.releases[id], id))
    && (forall id <- d.staging :: ListsPlan(d.staging[id].release, id))
  }

  /** What everything that is handed out and committed goes back to. */
  ghost predicate ServerInv(b: Board, s: Server) {
    && (forall p <- s.publications :: FromBuilds(b, p.plan))
    && (forall id <- s.inbox :: Planned(s, id))
    && InOrder(s)
  }

  ghost predicate FactoryInv(t: Tools, f: Factory) {
    && Review.Inv(f.desk) && BoardInv(t.sha, f.desk.revisions, f.server.board)
    && ServerInv(f.server.board, f.server)
    && f.disk.inbox == f.server.inbox && ManifestsListPlans(f.disk)
    && (forall id <- f.disk.releases :: Planned(f.server, id))
  }

  // ---------------------------------------------------------------- reviews and builds

  lemma ReviewMoves(d: Review.Desk, e: Review.Event)
    requires Review.Inv(d)
    ensures Review.Inv(Review.After(d, e)) && Moves(d.revisions, Review.After(d, e).revisions)
  {
    hide Review.After, Review.Inv;
    Review.EventKeeps(d, e);
    var f := Review.After(d, e);
    forall i | 0 <= i < |d.revisions|
      ensures f.revisions[i].base == d.revisions[i].base && f.revisions[i].outputs == d.revisions[i].outputs
              && (d.revisions[i].state == Approved ==> f.revisions[i].state == Approved)
    {
      assert Review.SameIdentity(d.revisions[i], f.revisions[i]);
    }
  }

  lemma StillFromBuilds(b: Board, e: Board, plan: PublishPlan)
    requires FromBuilds(b, plan) && Progresses(b, e)
    ensures FromBuilds(e, plan)
  {
    forall a <- plan.artifacts
        ensures exists i :: 0 <= i < |e.builds| && e.builds[i].state == Succeeded && a in e.builds[i].artifacts {
      var i :| 0 <= i < |b.builds| && b.builds[i].state == Succeeded && a in b.builds[i].artifacts;
      assert e.builds[i] == b.builds[i];
    }
  }

  /** A planned artifact is a record of a succeeded build, and that build's stored upload has its size and digest. */
  lemma PlannedIsStored(sha: Digest, revisions: seq<Revision>, b: Board, c: Closure, a: ArtifactRecord)
    returns (i: nat)
    requires BoardInv(sha, revisions, b)
    requires PlannedArtifacts(revisions, b, c).Some? && a in PlannedArtifacts(revisions, b, c).value
    ensures i < |b.builds| && b.builds[i].state == Succeeded && a in b.builds[i].artifacts
    ensures var slot := SlotOf(b, i, a.file);
            slot.stored.Some? && |slot.stored.value| == a.size && sha(slot.stored.value) == a.sha256
  {
    hide PlannedArtifacts, UsableAmong, LatestApproved, ClosureSet, BoardInv, DistinctNames;
    PlanIsExact(revisions, b, c);
    var chosen := Chosen(revisions, b, c);
    var base :| base in PublishedBases(revisions, b, c) && chosen[base] < |b.builds|
        && a in b.builds[chosen[base]].artifacts;
    i := chosen[base];
    assert UsableBuild(revisions, b, base) == Some(i);
    RowOf(sha, revisions, b, i);
    PresentIsStored(sha, revisions, b, i, a);
  }

  lemma PresentIsStored(sha: Digest, revisions: seq<Revision>, b: Board, i: nat, a: ArtifactRecord)
    requires i < |b.builds| && RowOk(revisions, b, i) && FilesOk(sha, b, i) && b.builds[i].state == Succeeded
    requires Present(b, i) && a in b.builds[i].artifacts
    ensures var slot := SlotOf(b, i, a.file);
            slot.stored.Some? && |slot.stored.value| == a.size && sha(slot.stored.value) == a.sha256
  {
    hide RowOk, FilesOk;
    StoredIsSafe(sha, revisions, b, i, a);
  }

  // ---------------------------------------------------------------- every event keeps it

  lemma ReviewingKeeps(t: Tools, f: Factory, e: Review.Event)
    requires FactoryInv(t, f)
    ensures FactoryInv(t, f.(desk := Review.After(f.desk, e)))
  {
    hide Review.Inv, Review.After, BoardInv, ServerInv, ManifestsListPlans, Planned;
    ReviewMoves(f.desk, e);
    MovesKeep(t.sha, f.desk.revisions, Review.After(f.desk, e).revisions, f.server.board);
  }

  lemma BuildingKeeps(t: Tools, f: Factory, e: Builds.Event)
    requires FactoryInv(t, f) && !e.Decided?
    ensures FactoryInv(t, After(t, f, Building(e)))
  {
    hide Review.Inv, BoardInv, ServerInv, ManifestsListPlans, Planned, Progresses, Builds.After;
    var w := Workshop(f.desk.revisions, f.server.board);
    Builds.EventKeeps(t.sha, w, e);
    RevisionsStay(t.sha, w, e);
    BoardMoves(f.server, Builds.After(t.sha, w, e).board);
    SamePublications(f.server, f.server.(board := Builds.After(t.sha, w, e).board));
  }

  lemma RevisionsStay(sha: Digest, w: Workshop, e: Builds.Event)
    requires !e.Decided?
    ensures Builds.After(sha, w, e).revisions == w.revisions
  {
  }

  lemma BoardMoves(s: Server, board: Board)
    requires ServerInv(s.board, s) && Progresses(s.board, board)
    ensures ServerInv(board, s.(board := board))
  {
    hide FromBuilds, Progresses, InOrder;
    BoardInOrder(s, board);
    forall p <- s.publications ensures FromBuilds(board, p.plan) { StillFromBuilds(s.board, board, p.plan); }
    SamePublications(s, s.(board := board));
  }

  lemma SamePublications(s: Server, e: Server)
    requires e.publications == s.publications
    ensures forall id :: Planned(s, id) ==> Planned(e, id)
  {
  }

  /** Collecting results settles rows and empties directories; plans stay. */
  lemma {:induction false} CollectPlans(s: Server, n: nat)
    requires n <= |s.publications|
    ensures var e := CollectRows(s, n);
            && e.board == s.board && (forall id <- e.inbox :: id in s.inbox && e.inbox[id] == s.inbox[id])
            && forall i :: 0 <= i < |s.publications| ==> e.publications[i].plan == s.publications[i].plan
  {
    if n > 0 { CollectPlans(s, n - 1); }
  }

  lemma CollectIsRows(s: Server)
    ensures Collect(s) == CollectRows(s, |s.publications|)
  {
  }

  lemma StillPlanned(s: Server, e: Server, id: PlanId)
    requires |s.publications| <= |e.publications| && Planned(s, id)
    requires forall i :: 0 <= i < |s.publications| ==> e.publications[i].plan == s.publications[i].plan
    ensures Planned(e, id)
  {
    var p :| p in s.publications && p.plan == id.plan;
    var i :| 0 <= i < |s.publications| && s.publications[i] == p;
    assert e.publications[i] in e.publications;
  }

  lemma CollectKeepsServer(s: Server)
    requires ServerInv(s.board, s)
    ensures var e := Collect(s);
            && ServerInv(s.board, e) && e.board == s.board && |e.publications| == |s.publications|
            && (forall id :: Planned(s, id) ==> Planned(e, id))
            && (forall id <- e.inbox :: id in s.inbox && e.inbox[id] == s.inbox[id])
  {
    hide FromBuilds, CollectRows, Planned, InOrder, InTime;
    CollectInOrder(s);
    CollectPlans(s, |s.publications|);
    CollectIsRows(s);
    var e := Collect(s);
    forall p <- e.publications ensures FromBuilds(s.board, p.plan) {
      var i :| 0 <= i < |e.publications| && e.publications[i] == p;
      assert s.publications[i] in s.publications;
    }
    forall id | Planned(s, id) ensures Planned(e, id) { StillPlanned(s, e, id); }
  }

  /** Results collected, leases expired, builds scheduled; nothing written yet. */
  function RefreshedFactory(f: Factory, c: Closure, bases: seq<string>): Factory {
    var server := Refreshed(f.desk.revisions, c, bases, f.server);
    f.(server := server, disk := f.disk.(inbox := server.inbox))
  }

  lemma RefreshedIsCollected(revisions: seq<Revision>, c: Closure, bases: seq<string>, s: Server)
    ensures Refreshed(revisions, c, bases, s) == Collect(s).(board := Refreshed(revisions, c, bases, s).board)
  {
  }

  lemma RefreshKeeps(t: Tools, f: Factory, c: Closure, bases: seq<string>)
    requires FactoryInv(t, f)
    ensures FactoryInv(t, RefreshedFactory(f, c, bases))
    ensures forall id <- RefreshedFactory(f, c, bases).disk.inbox ::
              id in f.disk.inbox && RefreshedFactory(f, c, bases).disk.inbox[id] == f.disk.inbox[id]
  {
    hide Review.Inv, BoardInv, ServerInv, Planned, Collect, Schedule, ExpireLeases, Progresses, ListsPlan;
    var revisions, b := f.desk.revisions, f.server.board;
    CollectKeepsServer(f.server);
    ExpireKeeps(t.sha, revisions, b, |b.builds|);
    ScheduleKeeps(t.sha, revisions, ExpireLeases(b, |b.builds|), c, bases);
    var board := Refreshed(revisions, c, bases, f.server).board;
    RefreshedIsCollected(revisions, c, bases, f.server);
    BoardProgresses(b, ExpireLeases(b, |b.builds|), board);
    BoardMoves(Collect(f.server), board);
    SamePublications(Collect(f.server), Collect(f.server).(board := board));
  }

  lemma BoardProgresses(a: Board, b: Board, c: Board)
    requires Progresses(a, b) && Progresses(b, c)
    ensures Progresses(a, c)
  {
  }

  lemma BoardOf(t: Tools, f: Factory)
    requires FactoryInv(t, f)
    ensures BoardInv(t.sha, f.desk.revisions, f.server.board)
  {
  }

  lemma PlannedFromBuilds(sha: Digest, revisions: seq<Revision>, b: Board, c: Closure, plan: PublishPlan)
    requires BoardInv(sha, revisions, b) && PlannedArtifacts(revisions, b, c) == Some(plan.artifacts)
    ensures FromBuilds(b, plan)
  {
    hide BoardInv, PlannedArtifacts;
    forall a <- plan.artifacts
      ensures exists i :: 0 <= i < |b.builds| && b.builds[i].state == Succeeded && a in b.builds[i].artifacts
    {
      var i := PlannedIsStored(sha, revisions, b, c, a);
    }
  }

  lemma WrittenKeepsServer(s: Server, plan: PublishPlan, files: map<string, PackageFile>)
    requires ServerInv(s.board, s) && FromBuilds(s.board, plan) && !AnyPending(s.publications)
    ensures var e := Written(s, plan, files);
            && ServerInv(e.board, e) && Planned(e, Sha256Of(plan)) && (forall id :: Planned(s, id) ==> Planned(e, id))
  {
    hide FromBuilds, InOrder;
    WriteInOrder(s, plan, files);
    var e := Written(s, plan, files);
    forall p <- e.publications ensures FromBuilds(e.board, p.plan) {
      BuildsStay(s.board, e.board, p.plan);
      if p in s.publications { assert FromBuilds(s.board, p.plan); }
    }
    forall id | Planned(s, id) ensures Planned(e, id) { StillPlanned(s, e, id); }
    assert e.publications[|e.publications| - 1].plan == Sha256Of(plan).plan;
  }

  lemma BuildsStay(b: Board, e: Board, plan: PublishPlan)
    requires e.builds == b.builds
    ensures FromBuilds(b, plan) ==> FromBuilds(e, plan)
  {
  }

  /** A plan that is written is made of records of succeeded builds. */
  lemma WriteKeepsFactory(t: Tools, f: Factory, c: Closure, plan: PublishPlan, sources: map<string, nat>)
    requires FactoryInv(t, f) && !AnyPending(f.server.publications)
    requires PlannedArtifacts(f.desk.revisions, f.server.board, c) == Some(plan.artifacts)
        && Copyable(f.server.board, plan.artifacts, sources)
    ensures var server := Write(f.server, t.inspect, plan, sources);
            FactoryInv(t, f.(server := server, disk := f.disk.(inbox := server.inbox)))
  {
    hide Review.Inv, BoardInv, PlannedArtifacts, HeldDigests, ListsPlan, ServerInv, Planned, Delta, AnyPending;
    var files := Delta(f.server.board, t.inspect, plan.artifacts, sources, HeldDigests(f.server.publications));
    TimePasses(t.sha, f.desk.revisions, f.server.board, f.server.board.now + 1);
    PlannedFromBuilds(t.sha, f.desk.revisions, f.server.board, c, plan);
    WrittenKeepsServer(f.server, plan, files);
    assert Write(f.server, t.inspect, plan, sources) == Written(f.server, plan, files);
  }

  /** A round refreshes, and hands over the plan to write when its files are there. */
  lemma RoundIs(t: Tools, f: Factory, c: Closure, bases: seq<string>, sources: map<string, nat>)
    ensures var mid := RefreshedFactory(f, c, bases);
            var plan := ToWrite(t.name, f.desk.revisions, c, mid.server);
            After(t, f, ReconcileRound(c, bases, sources)) ==
              if plan.Some? && Copyable(mid.server.board, plan.value.artifacts, sources)
              then
                var server := Write(mid.server, t.inspect, plan.value, sources);
                mid.(server := server, disk := mid.disk.(inbox := server.inbox))
              else mid
  {
    hide Refreshed, Write, ToWrite, Copyable;
  }

  lemma ReconcilingKeeps(t: Tools, f: Factory, c: Closure, bases: seq<string>, sources: map<string, nat>)
    requires FactoryInv(t, f)
    ensures FactoryInv(t, After(t, f, ReconcileRound(c, bases, sources)))
  {
    hide FactoryInv, Refreshed, Write, PlannedArtifacts, Copyable, HasActive, After, RefreshedFactory;
    RefreshKeeps(t, f, c, bases);
    RoundIs(t, f, c, bases, sources);
    var mid := RefreshedFactory(f, c, bases);
    assert mid.desk == f.desk by { SameDesk(f, c, bases); }
    var plan := ToWrite(t.name, f.desk.revisions, c, mid.server);
    if plan.Some? && Copyable(mid.server.board, plan.value.artifacts, sources) {
      WriteKeepsFactory(t, mid, c, plan.value, sources);
    }
  }

  lemma SameDesk(f: Factory, c: Closure, bases: seq<string>)
    ensures RefreshedFactory(f, c, bases).desk == f.desk
  {
  }

  // ---------------------------------------------------------------- the signer

  /** A call of a run for plan `id`: it commits no other release, and no manifest of it lists other artifacts. */
  ghost predicate Truthful(id: PlanId, s: Repository.Step) {
    match s
    case Commit(i) => i == id
    case WriteManifest(i, manifest) => manifest.artifacts == i.plan.artifacts
    case SignFile(_, _, target) => target != Repository.Manifest
    case _ => true
  }

  lemma {:induction false} LinksTruthful(id: PlanId, d: Disk, targets: seq<(Repository.LinkName, PlanId)>)
    ensures forall s <- Repository.LinkSteps(d, targets) :: Truthful(id, s) && !s.Commit?
  {
    if |targets| > 0 { LinksTruthful(id, d, targets[..|targets| - 1]); }
  }

  lemma PruneTruthful(id: PlanId, d: Disk, order: Repository.ScanOrder)
    ensures forall s <- Repository.PruneScript(d, order).steps :: Truthful(id, s)
  {
    hide Repository.PruneScript;
    CrashSafety.PruneDiscards(d, order);
  }

  lemma PrepareTruthful(d: Disk, id: PlanId)
    ensures forall s <- Repository.PrepareScript(d, id).steps :: Truthful(id, s)
  {
    hide Repository.Apply, Repository.Run, Repository.RepoAdd, Repository.CollectScript, Repository.MoveSteps,
        Repository.ExpectedEntries, Repository.AllPaths, Repository.KeyringFound, Repository.FilesToMove;
    CollectTruthful(d, id, id.plan.artifacts);
    Signer.MovesStay(id, Repository.FilesToMove(d, id));
  }

  lemma {:induction false} CollectTruthful(d: Disk, id: PlanId, artifacts: seq<ArtifactRecord>)
    ensures forall s <- Repository.CollectScript(d, id, artifacts).steps :: s.StagePackage? || s.SignPackage?
  {
    if |artifacts| > 0 { CollectTruthful(d, id, artifacts[..|artifacts| - 1]); }
  }

  lemma ActivateTruthful(id: PlanId, d: Disk, release: PlanId)
    ensures forall s <- Repository.ActivateScript(d, release).steps :: Truthful(id, s) && !s.Commit?
  {
    LinksTruthful(id, d, Repository.Targets(d, release));
  }

  lemma PublishTruthful(d: Disk, id: PlanId, order: Repository.ScanOrder)
    ensures forall s <- Repository.PublishSteps(d, id, order) :: Truthful(id, s)
  {
    hide Repository.Apply, Repository.Run, Repository.PrepareScript, Repository.ActivateScript, Repository.PruneScript;
    PrepareTruthful(d, id);
    ActivateTruthful(id, d, id);
    var committed := Repository.PrepareScript(d, id).steps + [Repository.Commit(id)];
    ActivateTruthful(id, Repository.Run(d, committed), id);
    PruneTruthful(id, Repository.Run(d, Repository.PublishScript(d, id).steps), order);
  }

  lemma {:induction false} TruthfulRun(d: Disk, id: PlanId, steps: seq<Repository.Step>)
    requires ManifestsListPlans(d) && forall s <- steps :: Truthful(id, s)
    ensures var e := Repository.Run(d, steps);
            ManifestsListPlans(e) && e.releases.Keys <= d.releases.Keys + {id}
  {
    hide Repository.Apply, ManifestsListPlans;
    if |steps| > 0 {
      TruthfulRun(d, id, steps[..|steps| - 1]);
      TruthfulStep(Repository.Run(d, steps[..|steps| - 1]), id, steps[|steps| - 1]);
    }
  }

  lemma TruthfulStep(d: Disk, id: PlanId, s: Repository.Step)
    requires ManifestsListPlans(d) && Truthful(id, s)
    ensures var e := Repository.Apply(d, s);
            ManifestsListPlans(e) && e.releases.Keys <= d.releases.Keys + {id}
  {
    hide Repository.Apply, ListsPlan;
    var e := Repository.Apply(d, s);
    StepCommitsOnly(d, id, s);
    forall i <- e.releases ensures ListsPlan(e.releases[i], i) { ReleaseListsPlan(d, id, s, i); }
    forall i <- e.staging ensures ListsPlan(e.staging[i].release, i) { StagedListsPlan(d, id, s, i); }
  }

  lemma StepCommitsOnly(d: Disk, id: PlanId, s: Repository.Step)
    requires Truthful(id, s)
    ensures Repository.Apply(d, s).releases.Keys <= d.releases.Keys + {id}
  {
  }

  lemma ReleaseListsPlan(d: Disk, id: PlanId, s: Repository.Step, i: PlanId)
    requires Truthful(id, s) && i in Repository.Apply(d, s).releases
    requires i in d.releases ==> ListsPlan(d.releases[i], i)
    requires i in d.staging ==> ListsPlan(d.staging[i].release, i)
    ensures ListsPlan(Repository.Apply(d, s).releases[i], i)
  {
  }

  lemma StagedListsPlan(d: Disk, id: PlanId, s: Repository.Step, i: PlanId)
    requires Truthful(id, s) && i in Repository.Apply(d, s).staging
    requires i in d.staging ==> ListsPlan(d.staging[i].release, i)
    ensures ListsPlan(Repository.Apply(d, s).staging[i].release, i)
  {
  }

  lemma {:induction false} CommittingNothing(d: Disk, steps: seq<Repository.Step>)
    requires forall s <- steps :: !s.Commit?
    ensures Repository.Run(d, steps).releases.Keys <= d.releases.Keys
  {
    hide Repository.Apply;
    if |steps| > 0 {
      CommittingNothing(d, steps[..|steps| - 1]);
      StepCommitsNothing(Repository.Run(d, steps[..|steps| - 1]), steps[|steps| - 1]);
    }
  }

  lemma StepCommitsNothing(d: Disk, s: Repository.Step)
    requires !s.Commit?
    ensures Repository.Apply(d, s).releases.Keys <= d.releases.Keys
  {
  }

  lemma SigningKeeps(t: Tools, f: Factory, turn: Signer.Turn)
    requires FactoryInv(t, f)
    ensures FactoryInv(t, After(t, f, SignerRun(turn)))
  {
    hide Review.Inv, BoardInv, Planned, FromBuilds, ManifestsListPlans, Truthful, Repository.Run,
        Repository.PublishSteps, Repository.PublishScript, InOrder;
    if turn.id in f.disk.inbox && turn.id !in f.server.outbox && Signer.Allowed(f.disk, turn) {
      var steps := Repository.PublishSteps(f.disk, turn.id, turn.order);
      PublishTruthful(f.disk, turn.id, turn.order);
      var done := Signer.TurnSteps(f.disk, turn);
      assert forall s <- done :: s in steps;
      TruthfulRun(f.disk, turn.id, done);
      Convergence.KeyringAndInboxStay(f.disk, done);
      SamePublications(f.server, After(t, f, SignerRun(turn)).server);
      InboxWaits(f.server, turn.id);
      AnswerInOrder(f.server, turn, f.server.board.now);
    }
  }

  lemma RollingBackKeeps(t: Tools, f: Factory, cut: nat)
    requires FactoryInv(t, f)
    ensures FactoryInv(t, f.(disk := RolledBack(f.disk, cut)))
  {
    hide Review.Inv, BoardInv, ServerInv, Planned, ManifestsListPlans, Truthful, Repository.Run,
        Repository.ActivateScript;
    var steps := Repository.RollbackScript(f.disk).steps;
    var done := if cut <= |steps| then steps[..cut] else steps;
    if Repository.Previous in f.disk.links {
      var id := f.disk.links[Repository.Previous];
      ActivateTruthful(id, f.disk, id);
      assert forall s <- done :: s in steps;
      TruthfulRun(f.disk, id, done);
    } else {
      assert done == [];
      Signer.RunEmpty(f.disk);
    }
    assert forall s <- done :: !s.Commit?;
    CommittingNothing(f.disk, done);
    Convergence.KeyringAndInboxStay(f.disk, done);
  }

  lemma EventKeeps(t: Tools, f: Factory, e: Event)
    requires FactoryInv(t, f)
    ensures FactoryInv(t, After(t, f, e))
  {
    hide FactoryInv, Reconcile, Review.After, Builds.After, RolledBack, Repository.Run, Repository.PublishSteps,
        Repository.PublishScript;
    match e
    case Reviewing(review) => ReviewingKeeps(t, f, review);
    case Building(build) => if !build.Decided? { BuildingKeeps(t, f, build); }
    case ReconcileRound(c, bases, sources) => ReconcilingKeeps(t, f, c, bases, sources);
    case SignerRun(turn) => SigningKeeps(t, f, turn);
    case RollbackRun(cut) => RollingBackKeeps(t, f, cut);
  }

  // ---------------------------------------------------------------- every run

  /** An empty installation: no revisions, builds, publications or packages. */
  ghost predicate Empty(f: Factory) {
    && f.desk == Review.EMPTY_DESK && f.server == Server(EMPTY_BOARD, [], map[], map[])
    && f.disk == Repository.Disk(f.disk.keyring, map[], map[], map[], map[], map[], map[], map[])
  }

  /** The states an installation goes through, one event after the other, whatever the events are. */
  ghost predicate IsRun(t: Tools, states: seq<Factory>, events: seq<Event>) {
    && |states| == |events| + 1 && Empty(states[0])
    && forall i {:trigger events[i]} :: 0 <= i < |events| ==> states[i + 1] == After(t, states[i], events[i])
  }

  lemma ShorterRun(t: Tools, states: seq<Factory>, events: seq<Event>)
    requires IsRun(t, states, events) && |events| > 0
    ensures var n := |events| - 1;
            IsRun(t, states[..n + 1], events[..n]) && states[n + 1] == After(t, states[n], events[n])
  {
    hide After, Empty;
    var n := |events| - 1;
    assert events[n] == events[n];
    forall i {:trigger events[..n][i]} | 0 <= i < n
      ensures states[..n + 1][i + 1] == After(t, states[..n + 1][i], events[..n][i])
    {
      assert events[..n][i] == events[i];
    }
  }

  lemma RunLengths(t: Tools, states: seq<Factory>, events: seq<Event>)
    requires IsRun(t, states, events)
    ensures |states| == |events| + 1
  {
    hide After, Empty;
  }

  /** Every state of every run is in order: at most the newest publication is pending and the exchange directories hold
      at most its plan and its answer; and whatever is planned, handed out, staged or committed goes back to succeeded
      builds. */
  lemma {:induction false} RunKeeps(t: Tools, states: seq<Factory>, events: seq<Event>)
    requires IsRun(t, states, events)
    ensures FactoryInv(t, states[|events|])
  {
    hide FactoryInv, After, Empty;
    if |events| > 0 {
      hide IsRun;
      var n := |events| - 1;
      ShorterRun(t, states, events);
      RunLengths(t, states, events);
      RunKeeps(t, states[..n + 1], events[..n]);
      EventKeeps(t, states[n], events[n]);
    } else {
      EmptyIsInOrder(t, states[0]);
    }
  }

  lemma EmptyIsInOrder(t: Tools, f: Factory)
    requires Empty(f)
    ensures FactoryInv(t, f)
  {
    Review.HistoryKeeps([]);
  }

  /** In every state of every run at most one publication is pending, and it is the newest. */
  lemma OnePending(t: Tools, states: seq<Factory>, events: seq<Event>, i: nat)
    requires IsRun(t, states, events)
    requires var rows := states[|events|].server.publications; i < |rows| && rows[i].state == Pending
    ensures i == |states[|events|].server.publications| - 1
  {
    hide IsRun, Review.Inv, BoardInv, Planned, FromBuilds, ManifestsListPlans;
    RunLengths(t, states, events);
    RunKeeps(t, states, events);
  }

  /** What stands behind an installable package: a succeeded build of an approved revision, one of whose declared
      outputs it is, leased and reported once for its attempt; the approval goes back, through equal trees, to a human
      or to the agents; and a human approved a revision of the package. */
  ghost predicate Provenance(f: Factory, a: ArtifactRecord, i: nat, origin: nat) {
    && i < |f.server.board.builds|
    && var row := f.server.board.builds[i];
       && row.state == Succeeded && a in row.artifacts
       && (i, row.attempt) in f.server.board.leases && (i, row.attempt) in f.server.board.reports
       && row.revision < |f.desk.revisions| && f.desk.revisions[row.revision].state == Approved
       && a.packageName in f.desk.revisions[row.revision].outputs
       && origin <= row.revision && f.desk.revisions[origin].tree == f.desk.revisions[row.revision].tree
       && f.desk.revisions[origin].base == row.base
       && (Review.ByHuman(f.desk, origin) || Review.ByAgents(f.desk, origin))
       && (exists h :: 0 <= h < |f.desk.revisions| && f.desk.revisions[h].base == row.base
                       && f.desk.revisions[h].state == Approved && Review.ByHuman(f.desk, h))
  }

  /** The manifest of the release a link names lists the artifact. */
  ghost predicate Installable(f: Factory, link: Repository.LinkName, a: ArtifactRecord) {
    && link in f.disk.links && f.disk.links[link] in f.disk.releases
    && var r := f.disk.releases[f.disk.links[link]];
       Repository.Manifest in r && r[Repository.Manifest].ManifestText?
           && a in r[Repository.Manifest].manifest.artifacts
  }

  /** Main result: in every state of every run of reviews, builds, rebuilds, uploads, reconciling rounds, signer runs
      that are cut or fail anywhere, and rollbacks, whatever release a link names, every package in its manifest has its
      provenance. */
  lemma ProvenanceOfEverything(t: Tools, states: seq<Factory>, events: seq<Event>, link: Repository.LinkName,
      a: ArtifactRecord)
      returns (i: nat, origin: nat)
    requires IsRun(t, states, events) && Installable(states[|events|], link, a)
    ensures Provenance(states[|events|], a, i, origin)
  {
    hide IsRun, FactoryInv, Provenance, Installable;
    RunLengths(t, states, events);
    RunKeeps(t, states, events);
    var f := states[|events|];
    LinkedIsPlanned(t, f, link, a);
    i, origin := PlannedHasProvenance(t, f, f.disk.links[link], a);
  }

  /** What the manifest of a linked release lists, its plan lists. */
  lemma LinkedIsPlanned(t: Tools, f: Factory, link: Repository.LinkName, a: ArtifactRecord)
    requires FactoryInv(t, f) && Installable(f, link, a)
    ensures link in f.disk.links && Planned(f.server, f.disk.links[link]) && a in f.disk.links[link].plan.artifacts
  {
    hide BoardInv, Review.Inv, ServerInv, Planned;
    assert ListsPlan(f.disk.releases[f.disk.links[link]], f.disk.links[link]);
  }

  lemma PlannedHasProvenance(t: Tools, f: Factory, id: PlanId, a: ArtifactRecord) returns (i: nat, origin: nat)
    requires FactoryInv(t, f) && Planned(f.server, id) && a in id.plan.artifacts
    ensures Provenance(f, a, i, origin)
  {
    hide BoardInv, Review.Inv, ManifestsListPlans;
    var p :| p in f.server.publications && p.plan == id.plan;
    assert FromBuilds(f.server.board, p.plan);
    i :| 0 <= i < |f.server.board.builds| && f.server.board.builds[i].state == Succeeded
        && a in f.server.board.builds[i].artifacts;
    RowOf(t.sha, f.desk.revisions, f.server.board, i);
    origin := Review.ApprovalHasOrigin(f.desk, f.server.board.builds[i].revision);
    var h := Review.HumanApprovedBefore(f.desk, f.server.board.builds[i].revision);
  }

  // ---------------------------------------------------------------- the bytes at the commit

  /** Main result about bytes: whenever an event leaves a release committed that was not, it was a turn of the signer at
      that plan, and at one of its calls the release was whole: complete directory, and every planned package in place
      with the recorded size and digest under a valid signature. The one condition is that no planned package bears the
      keyring's file name. */
  lemma CommittedWasWhole(t: Tools, f: Factory, e: Event, id: PlanId) returns (k: nat)
    requires Committing.KeyringApart(f.disk, id)
    requires !Repository.Committed(f.disk, id) && Repository.Committed(After(t, f, e).disk, id)
    ensures e.SignerRun? && e.turn.id == id && k <= |Signer.TurnSteps(f.disk, e.turn)|
    ensures Committing.Whole(Repository.Run(f.disk, Signer.TurnSteps(f.disk, e.turn)[..k]), id)
  {
    hide Repository.Run, Repository.PublishSteps, Repository.RollbackScript, Reconcile, Builds.After, Review.After,
        Committing.Whole, Signer.Allowed;
    match e
    case Reviewing(review) => assert false;
    case Building(build) => assert false;
    case ReconcileRound(c, bases, sources) => assert false;
    case SignerRun(turn) =>
      var steps := Repository.PublishSteps(f.disk, turn.id, turn.order);
      var cut := if turn.cut <= |steps| then turn.cut else |steps|;
      assert Signer.TurnSteps(f.disk, turn) == steps[..cut];
      OnlyItsOwn(f.disk, turn.id, turn.order, cut, id);
      k := Committing.CommittedWasWhole(f.disk, id, turn.order, cut);
      assert steps[..cut][..k] == steps[..k];
    case RollbackRun(cut) =>
      RollbackCommitsNothing(f.disk, cut, id);
      assert false;
  }

  lemma KeyringStays(t: Tools, f: Factory, e: Event)
    ensures After(t, f, e).disk.keyring == f.disk.keyring
  {
    hide Repository.Run, Repository.PublishSteps, Repository.RollbackScript, Reconcile, Builds.After, Review.After,
        Signer.Allowed;
    match e
    case SignerRun(turn) => Convergence.KeyringAndInboxStay(f.disk, Signer.TurnSteps(f.disk, turn));
    case RollbackRun(cut) =>
      var steps := Repository.RollbackScript(f.disk).steps;
      Convergence.KeyringAndInboxStay(f.disk, if cut <= |steps| then steps[..cut] else steps);
    case _ =>
  }

  lemma {:induction false} SameKeyring(t: Tools, states: seq<Factory>, events: seq<Event>)
    requires IsRun(t, states, events)
    ensures |states| == |events| + 1 && states[|events|].disk.keyring == states[0].disk.keyring
  {
    hide After, Empty;
    if |events| > 0 {
      var n := |events| - 1;
      ShorterRun(t, states, events);
      SameKeyring(t, states[..n + 1], events[..n]);
      KeyringStays(t, states[n], events[n]);
    }
  }

  /** Every committed release of every run was whole when it was committed: `m` is the event, `k` the call. */
  lemma {:induction false} EveryReleaseWasWhole(t: Tools, states: seq<Factory>, events: seq<Event>, id: PlanId)
      returns (m: nat, k: nat)
    requires IsRun(t, states, events) && Repository.Committed(states[|events|].disk, id)
    requires Committing.KeyringApart(states[|events|].disk, id)
    ensures m < |events| && events[m].SignerRun? && events[m].turn.id == id
    ensures k <= |Signer.TurnSteps(states[m].disk, events[m].turn)|
    ensures Committing.Whole(
              Repository.Run(states[m].disk, Signer.TurnSteps(states[m].disk, events[m].turn)[..k]), id)
  {
    hide After, Committing.Whole, Repository.Run, Signer.TurnSteps;
    if |events| > 0 {
      hide IsRun, Empty;
      var n := |events| - 1;
      ShorterRun(t, states, events);
      RunLengths(t, states, events);
      SameKeyring(t, states, events);
      SameKeyring(t, states[..n + 1], events[..n]);
      if Repository.Committed(states[n].disk, id) {
        m, k := EveryReleaseWasWhole(t, states[..n + 1], events[..n], id);
        assert states[..n + 1][m] == states[m] && events[..n][m] == events[m];
      } else {
        m := n;
        k := CommittedWasWhole(t, states[n], events[n], id);
      }
    }
  }

  lemma OnlyItsOwn(d: Disk, own: PlanId, order: Repository.ScanOrder, cut: nat, id: PlanId)
    requires cut <= |Repository.PublishSteps(d, own, order)| && !Repository.Committed(d, id)
    requires Repository.Committed(Repository.Run(d, Repository.PublishSteps(d, own, order)[..cut]), id)
    ensures id == own
  {
    hide Repository.Run, Repository.PublishSteps;
    var steps := Repository.PublishSteps(d, own, order)[..cut];
    PublishTruthful(d, own, order);
    assert forall s <- steps :: s in Repository.PublishSteps(d, own, order);
    if id != own { NotCommitted(d, steps, id); }
  }

  lemma RollbackCommitsNothing(d: Disk, cut: nat, id: PlanId)
    requires !Repository.Committed(d, id)
    ensures !Repository.Committed(RolledBack(d, cut), id)
  {
    hide Repository.Run, Repository.ActivateScript, Repository.Committed;
    var steps := Repository.RollbackScript(d).steps;
    if Repository.Previous in d.links { ActivateTruthful(id, d, d.links[Repository.Previous]); }
    NotCommitted(d, if cut <= |steps| then steps[..cut] else steps, id);
  }

  lemma {:induction false} NotCommitted(d: Disk, steps: seq<Repository.Step>, id: PlanId)
    requires !Repository.Committed(d, id) && forall s <- steps :: s.Commit? ==> s.id != id
    ensures !Repository.Committed(Repository.Run(d, steps), id)
  {
    hide Repository.Apply, Repository.Committed;
    if |steps| > 0 {
      NotCommitted(d, steps[..|steps| - 1], id);
      StepNotCommitted(Repository.Run(d, steps[..|steps| - 1]), steps[|steps| - 1], id);
    }
  }

  lemma StepNotCommitted(d: Disk, s: Repository.Step, id: PlanId)
    requires !Repository.Committed(d, id) && (s.Commit? ==> s.id != id)
    ensures !Repository.Committed(Repository.Apply(d, s), id)
  {
  }

  // ---------------------------------------------------------------- what the loop converges to

  /** What the reconciling loop converges to is what the build table holds: the desired plan has a source for each file,
      and where its files have distinct names, each source holds what the record says. */
  lemma DesiredIsWanted(t: Tools, revisions: seq<Revision>, b: Board, c: Closure, bases: seq<string>,
      sources: map<string, nat>)
    requires BoardInv(t.sha, revisions, b) && Reads(t.sha, t.inspect)
    requires PlannedArtifacts(revisions, b, c).Some? && Sourced(b, sources, PlannedArtifacts(revisions, b, c).value)
    requires forall id <- sources.Values :: exists base <- PublishedBases(revisions, b, c) ::
        Chosen(revisions, b, c)[base] == id
    ensures var plan := PublishPlan(PUBLISH_PLAN_FORMAT, t.name, PlannedArtifacts(revisions, b, c).value);
            && Reconciling.Wants(Reconciling.Setting(t.inspect, t.name, revisions, c, bases, sources, plan), b)
            && (DistinctFiles(plan.artifacts) ==> forall a <- plan.artifacts ::
                  Repository.Matches(t.inspect(SlotOf(b, sources[a.file], a.file).stored.value), a))
  {
    hide BoardInv, PlannedArtifacts, Sourced, PublishedBases, Chosen, DistinctFiles, Reads;
    var artifacts := PlannedArtifacts(revisions, b, c).value;
    Publishing.SourcesAreCopyable(revisions, b, c, artifacts, sources);
    if DistinctFiles(artifacts) {
      forall a <- artifacts
        ensures Repository.Matches(t.inspect(SlotOf(b, sources[a.file], a.file).stored.value), a)
      {
        SourceMatches(t, revisions, b, c, artifacts, sources, a);
      }
    }
  }

  lemma SourceMatches(t: Tools, revisions: seq<Revision>, b: Board, c: Closure, artifacts: seq<ArtifactRecord>,
      sources: map<string, nat>, a: ArtifactRecord)
    requires BoardInv(t.sha, revisions, b) && Reads(t.sha, t.inspect) && a in artifacts
    requires PlannedArtifacts(revisions, b, c) == Some(artifacts) && Sourced(b, sources, artifacts)
    requires forall id <- sources.Values :: exists base <- PublishedBases(revisions, b, c) ::
        Chosen(revisions, b, c)[base] == id
    requires DistinctFiles(artifacts)
    ensures a.file in sources && SlotOf(b, sources[a.file], a.file).stored.Some?
    ensures Repository.Matches(t.inspect(SlotOf(b, sources[a.file], a.file).stored.value), a)
  {
    hide BoardInv, PlannedArtifacts, UsableAmong, LatestApproved, ClosureSet, DistinctNames;
    var i := sources[a.file];
    assert i in sources.Values;
    var base :| base in PublishedBases(revisions, b, c) && Chosen(revisions, b, c)[base] == i;
    assert UsableBuild(revisions, b, base) == Some(i);
    var own :| own in b.builds[i].artifacts && own.file == a.file;
    PlanIsExact(revisions, b, c);
    assert own in artifacts;
    Committing.SameFileSameRecord(artifacts, a, own);
    RowOf(t.sha, revisions, b, i);
    PresentIsStored(t.sha, revisions, b, i, a);
  }

  /** What the server plans, the signer accepts: where no file name and not the keyring's package is planned twice, the
      desired plan's fields are in order. */
  lemma DesiredIsAcceptable(t: Tools, revisions: seq<Revision>, b: Board, c: Closure)
    requires BoardInv(t.sha, revisions, b) && PlannedArtifacts(revisions, b, c).Some?
    ensures var plan := PublishPlan(PUBLISH_PLAN_FORMAT, t.name, PlannedArtifacts(revisions, b, c).value);
            Committing.Acceptable(plan) <==>
              && (forall i, j :: 0 <= i < j < |plan.artifacts| ==> plan.artifacts[i].file != plan.artifacts[j].file)
              && (forall a <- plan.artifacts :: a.packageName != "aursmith-keyring")
  {
    hide BoardInv, PlannedArtifacts, PublishedBases, Chosen;
    var artifacts := PlannedArtifacts(revisions, b, c).value;
    PlanIsExact(revisions, b, c);
    forall i | 0 <= i < |artifacts| ensures artifacts[i].size >= 1 {
      var build := PlannedIsStored(t.sha, revisions, b, c, artifacts[i]);
      SizeOfRecord(t.sha, revisions, b, build, artifacts[i]);
    }
  }

  lemma SizeOfRecord(sha: Digest, revisions: seq<Revision>, b: Board, i: nat, a: ArtifactRecord)
    requires BoardInv(sha, revisions, b) && i < |b.builds| && b.builds[i].state == Succeeded
    requires a in b.builds[i].artifacts
    ensures a.size >= 1
  {
    hide BoardInv, FilePrefix;
    RowOf(sha, revisions, b, i);
  }
}
