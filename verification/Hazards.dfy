/** Inputs at which a promise fails: how the system gets there, one event after the other. */
module Hazards {
  import opened Protocol
  import opened Repository
  import opened CrashSafety
  import opened Convergence
  import opened Committing
  import Planning
  import Signer
  import X = Exchange

  // ---------------------------------------------------------------- a failure that loses a release

  lemma ReferencedByServed(d: Disk, id: PlanId)
    requires Served(d, id)
    ensures id in d.releases
    ensures ReferencedFiles(d.releases[id]) == (set a | a in id.plan.artifacts :: a.file) + {d.keyring.record.file}
  {
  }

  /** The package file belongs to the plan or is the keyring. */
  predicate Holds(d: Disk, id: PlanId, file: string) {
    (exists a <- id.plan.artifacts :: a.file == file) || file == d.keyring.record.file
  }

  /** The disk after the operator rolled back to `z`, wrote nothing else, and the plan `b` was handed over. */
  ghost predicate AfterRollback(book: Book, d: Disk, a: PlanId, z: PlanId) {
    && Inv(d, book) && Current in d.links && d.links[Current] == z && Previous in d.links && d.links[Previous] == a
  }

  /** A fresh publish of `b` after a rollback from `a` to `z` removes `a`, and every package that only `a` has. */
  lemma FreshRunRemoves(book: Book, d: Disk, a: PlanId, z: PlanId, b: PlanId, order: ScanOrder)
    requires AfterRollback(book, d, a, z) && a != z && a != b && b != z && NamesFixed(book, d, b) && X.Fresh(d, b)
    requires Lists(Run(d, PublishScript(d, b).steps), order)
    ensures var e := Run(d, PublishSteps(d, b, order));
            && a !in e.releases && !Served(e, a)
            && forall file <- e.hot :: Holds(d, b, file) || Holds(d, z, file)
  {
    hide Apply, Run, PublishScript, PruneScript, Inv, NamesFixed, Served, Lists, X.Fresh;
    assert !X.Spares(d, b, a);
    X.RunRemoves(book, d, b, order, a);
    var mid, e := Run(d, PublishScript(d, b).steps), Run(d, PublishSteps(d, b, order));
    PublishEnds(book, d, b) by { ScriptOk(d, b); }
    KeptAreServed(book, d, mid, b, z);
    X.UnservedWithout(e, a);
    forall file <- e.hot ensures Holds(d, b, file) || Holds(d, z, file) {
      var id :| id in KeptReleases(mid) && id in mid.releases && file in ReferencedFiles(mid.releases[id]);
      X.KeptAre(mid, id);
      ReferencedByServed(mid, id);
    }
  }

  lemma ScriptOk(d: Disk, id: PlanId)
    requires X.Fresh(d, id)
    ensures PublishScript(d, id).ok && !Committed(d, id)
  {
  }

  lemma KeptAreServed(book: Book, d: Disk, mid: Disk, b: PlanId, z: PlanId)
    requires Inv(mid, book) && Published(d, mid, b) && Current in d.links && d.links[Current] == z && b != z
    ensures mid.links[Current] == b && Previous in mid.links && mid.links[Previous] == z && mid.keyring == d.keyring
    ensures Served(mid, b) && Served(mid, z)
  {
    assert Served(mid, mid.links[Previous]);
  }

  /** The operator rolls back, and plan `b` is written. */
  function Ready(w: X.World, b: PublishPlan, files: map<string, PackageFile>): X.World {
    X.After(X.After(w, X.RollbackRun(|RollbackScript(w.disk).steps|)), X.Writing(b, files))
  }

  /** The signer publishes and prunes, and the machine stops before the answer is written. */
  function Unanswered(w: X.World, id: PlanId, order: ScanOrder): X.World {
    X.After(w, X.SignerTurn(Signer.Turn(id, order, |PublishSteps(w.disk, id, order)|, Signer.Silent)))
  }

  /** The next turn meets an error at its first call and answers a failure, and the server collects it. */
  function GivenUp(w: X.World, id: PlanId, order: ScanOrder): X.World {
    X.After(X.After(w, X.SignerTurn(Signer.Turn(id, order, 0, Signer.Failure))), X.Collecting)
  }

  lemma RolledBackTo(book: Book, d: Disk, a: PlanId, z: PlanId)
    requires Inv(d, book) && Current in d.links && d.links[Current] == a && Previous in d.links
        && d.links[Previous] == z
    ensures AfterRollback(book, X.RolledBack(d, |RollbackScript(d).steps|), a, z)
    ensures SameOutsideLinks(d, X.RolledBack(d, |RollbackScript(d).steps|))
  {
    hide Inv, Run, RollbackScript, SameOutsideLinks;
    var steps := RollbackScript(d).steps;
    assert steps[..|steps|] == steps;
    LinkedMayActivate(book, d);
    RollbackSwaps(d);
    X.RolledBackFacts(book, d, |steps|);
  }

  lemma ReadyFacts(book: Book, w: X.World, a: PublishPlan, z: PlanId, b: PublishPlan, files: map<string, PackageFile>)
    requires X.ExchangeInv(book, w) && !X.AnyPending(w.server.publications)
    requires X.NewestReleased(w.server.publications) == Some(a)
    requires Current in w.disk.links && w.disk.links[Current] == Sha256Of(a)
    requires Previous in w.disk.links && w.disk.links[Previous] == z && X.Brings(book, w.server, b, files)
    ensures var ready := Ready(w, b, files);
            && X.ExchangeInv(book, ready) && AfterRollback(book, ready.disk, Sha256Of(a), z)
            && ready.disk.keyring == w.disk.keyring && X.Waiting(ready.server) == Some(Sha256Of(b))
            && X.NewestReleased(ready.server.publications) == Some(a) && NamesFixed(book, ready.disk, Sha256Of(b))
  {
    hide Inv, NamesFixed, Served, X.RolledBack, X.NewestReleased, X.Handed, X.Brings, PlanByBook, RollbackScript;
    var rollback := X.RollbackRun(|RollbackScript(w.disk).steps|);
    var back := X.After(w, rollback);
    X.EventKeeps(book, w, rollback);
    X.EventKeeps(book, back, X.Writing(b, files));
    RolledBackTo(book, w.disk, Sha256Of(a), z);
    var ready := Ready(w, b, files);
    X.NewerPending(w.server.publications, Planning.Publication(b, Planning.Pending, w.server.board.now, 0));
    X.InboxIsFree(book, back.disk, ready.server.inbox);
    X.LastPending(ready.server.publications);
    assert w.server.outbox == map[];
  }

  /** A failure answered at once: the row ends declined, nothing is pending, and the disk is as it was. */
  lemma GivenUpFacts(book: Book, w: X.World, id: PlanId, order: ScanOrder)
    requires X.Coupled(w) && X.Waiting(w.server) == Some(id) && w.server.outbox == map[]
    requires forall i :: i in w.server.inbox ==> i == id
    requires forall i :: 0 <= i < |w.server.publications| - 1 ==> w.server.publications[i].state != Planning.Pending
    ensures var e := GivenUp(w, id, order);
            && !X.AnyPending(e.server.publications) && e.disk == w.disk.(inbox := e.server.inbox)
            && X.NewestReleased(e.server.publications) == X.NewestReleased(w.server.publications)
  {
    hide Run, PublishSteps, X.NewestReleased, X.Settle, X.CollectRows;
    var failed := X.After(w, X.SignerTurn(Signer.Turn(id, order, 0, Signer.Failure)));
    Signer.RunEmpty(w.disk);
    assert PublishSteps(w.disk, id, order)[..0] == [];
    assert failed.disk == w.disk;
    X.CollectLast(failed.server);
    X.SettledFacts(failed.server, Planning.Declined, w.server.board.now);
  }

  lemma PendingParts(book: Book, w: X.World)
    requires X.ExchangeInv(book, w) && X.Waiting(w.server).Some?
    ensures X.Coupled(w) && w.server.outbox == map[]
    ensures forall i :: i in w.server.inbox ==> i == X.Waiting(w.server).value
    ensures forall i :: 0 <= i < |w.server.publications| - 1 ==> w.server.publications[i].state != Planning.Pending
  {
    hide Inv, NamesFixed, Served, X.NewestReleased, X.Handed, PlanByBook;
    X.LastPending(w.server.publications);
  }

  lemma HeldOf(publications: seq<Planning.Publication>, a: PublishPlan, x: ArtifactRecord)
    requires X.NewestReleased(publications) == Some(a) && x in a.artifacts
    ensures x.sha256 in X.HeldDigests(publications)
  {
  }

  lemma NotServedNewest(book: Book, e: X.World, a: PublishPlan)
    requires !X.AnyPending(e.server.publications) && X.NewestReleased(e.server.publications) == Some(a)
    requires !Served(e.disk, Sha256Of(a))
    ensures !X.ExchangeInv(book, e)
  {
  }

  lemma NotReusable(d: Disk, x: ArtifactRecord)
    ensures Reusable(d, x) ==> x.file in d.hot
  {
  }

  /** Main result about failures. `a` is released and current, `z` was before it. After a rollback, a publish of `b`
      whose answer is lost, and a failure at the second turn, nothing is pending and the server takes `a` for what the
      signer holds - but the release is gone, and so is every package of it that neither `b` nor `z` has. A later plan
      with such a package is handed over without it and cannot be completed. */
  lemma FailureLosesRelease(book: Book, w: X.World, a: PublishPlan, z: PlanId, b: PublishPlan,
                            files: map<string, PackageFile>, order: ScanOrder)
    requires X.ExchangeInv(book, w) && !X.AnyPending(w.server.publications)
    requires X.NewestReleased(w.server.publications) == Some(a)
    requires Current in w.disk.links && w.disk.links[Current] == Sha256Of(a)
    requires Previous in w.disk.links && w.disk.links[Previous] == z && X.Brings(book, w.server, b, files)
    requires z != Sha256Of(a) && z != Sha256Of(b) && a != b
    requires var d := Ready(w, b, files).disk;
             X.Fresh(d, Sha256Of(b)) && Lists(Run(d, PublishScript(d, Sha256Of(b)).steps), order)
    ensures var e := GivenUp(Unanswered(Ready(w, b, files), Sha256Of(b), order), Sha256Of(b), order);
            && !X.AnyPending(e.server.publications) && X.NewestReleased(e.server.publications) == Some(a)
            && Sha256Of(a) !in e.disk.releases && !X.ExchangeInv(book, e)
            && forall x <- a.artifacts :: x.sha256 in X.HeldDigests(e.server.publications)
                 && (Holds(w.disk, Sha256Of(b), x.file) || Holds(w.disk, z, x.file) || !Reusable(e.disk, x))
  {
    hide Run, PublishScript, PublishSteps, Inv, NamesFixed, Served, Lists, X.Fresh, X.ExchangeInv, X.Brings,
        X.NewestReleased, Ready, GivenUp, AfterRollback, Reusable, X.HeldDigests;
    var id := Sha256Of(b);
    var ready := Ready(w, b, files);
    ReadyFacts(book, w, a, z, b, files);
    FreshRunRemoves(book, ready.disk, Sha256Of(a), z, id, order);
    var mid := Unanswered(ready, id, order);
    UnansweredFacts(book, ready, id, order);
    PendingParts(book, mid);
    GivenUpFacts(book, mid, id, order);
    var e := GivenUp(mid, id, order);
    assert e.disk.hot == mid.disk.hot && e.disk.releases == mid.disk.releases;
    X.UnservedWithout(e.disk, Sha256Of(a));
    NotServedNewest(book, e, a);
    forall x <- a.artifacts
      ensures x.sha256 in X.HeldDigests(e.server.publications)
      ensures Holds(w.disk, id, x.file) || Holds(w.disk, z, x.file) || !Reusable(e.disk, x)
    {
      HeldOf(e.server.publications, a, x);
      NotReusable(e.disk, x);
      if x.file in e.disk.hot { HoldsSame(w.disk, ready.disk, id, z, x.file); }
    }
  }

  lemma HoldsSame(d: Disk, e: Disk, b: PlanId, z: PlanId, file: string)
    requires d.keyring == e.keyring && (Holds(e, b, file) || Holds(e, z, file))
    ensures Holds(d, b, file) || Holds(d, z, file)
  {
  }

  lemma UnansweredFacts(book: Book, w: X.World, id: PlanId, order: ScanOrder)
    requires X.ExchangeInv(book, w) && X.Waiting(w.server) == Some(id)
    ensures var e := Unanswered(w, id, order);
            && X.ExchangeInv(book, e) && e.server == w.server && e.disk == Run(w.disk, PublishSteps(w.disk, id, order))
  {
    hide Run, PublishSteps, X.ExchangeInv;
    var steps := PublishSteps(w.disk, id, order);
    assert steps[..|steps|] == steps;
    X.EventKeeps(book, w, X.SignerTurn(Signer.Turn(id, order, |steps|, Signer.Silent)));
  }

  // ---------------------------------------------------------------- how such a world comes about

  /** The next turn ends and answers a success, which the server collects. */
  function Finished(w: X.World, b: PlanId, order: ScanOrder): X.World {
    var whole := |PublishSteps(w.disk, b, order)|;
    X.After(X.After(w, X.SignerTurn(Signer.Turn(b, order, whole, Signer.Success))), X.Collecting)
  }

  /** A plan that is written, published and collected is the newest released one and the current release, and what was
      current is previous. Two plans one after the other give the world that `FailureLosesRelease` starts from. */
  lemma FinishedIsReleased(book: Book, w: X.World, a: PublishPlan, files: map<string, PackageFile>, order: ScanOrder)
    requires X.ExchangeInv(book, w) && !X.AnyPending(w.server.publications) && X.Brings(book, w.server, a, files)
    requires PublishScript(X.After(w, X.Writing(a, files)).disk, Sha256Of(a)).ok
    ensures var e := Finished(X.After(w, X.Writing(a, files)), Sha256Of(a), order);
            && X.ExchangeInv(book, e) && !X.AnyPending(e.server.publications)
            && X.NewestReleased(e.server.publications) == Some(a)
            && e.disk.links == Switched(w.disk, Sha256Of(a))
  {
    hide Run, PublishSteps, PublishScript, Inv, NamesFixed, Served, X.ExchangeInv, X.Collect, X.Brings,
        X.NewestReleased, Switched, PlanByBook, Signer.Allowed, Signer.AfterTurn;
    var id := Sha256Of(a);
    var ready := X.After(w, X.Writing(a, files));
    X.EventKeeps(book, w, X.Writing(a, files));
    WrittenWaits(book, w, a, files);
    X.ExchangeInvOf(book, ready);
    WaitingNamesFixed(book, ready);
    var t := Signer.Turn(id, order, |PublishSteps(ready.disk, id, order)|, Signer.Success);
    WholeTurn(ready.disk, id, order);
    Signer.SuccessServes(book, ready.disk, t);
    var answered := X.After(ready, X.SignerTurn(t));
    X.EventKeeps(book, ready, X.SignerTurn(t));
    assert X.InTime(answered.server) by { AnsweredInTime(book, ready, answered, id); }
    X.EventKeeps(book, answered, X.Collecting);
    PendingParts(book, ready);
    assert answered.server.outbox == map[id := X.Done(true, ready.server.board.now)];
    CollectedReleases(book, ready, answered, a);
    SwitchedSame(w.disk, ready.disk, id);
  }

  lemma WholeTurn(d: Disk, id: PlanId, order: ScanOrder)
    requires PublishScript(d, id).ok
    ensures Signer.Allowed(d, Signer.Turn(id, order, |PublishSteps(d, id, order)|, Signer.Success))
  {
    hide Run, PublishScript, PruneScript;
  }

  lemma SwitchedSame(d: Disk, e: Disk, id: PlanId)
    requires e.links == d.links && e.releases == d.releases
    ensures Switched(e, id) == Switched(d, id)
  {
  }

  lemma CollectedReleases(book: Book, w: X.World, answered: X.World, a: PublishPlan)
    requires X.ExchangeInv(book, w) && X.Waiting(w.server) == Some(Sha256Of(a))
    requires answered.server.publications == w.server.publications && answered.server.inbox == w.server.inbox
    requires exists at :: answered.server.outbox == map[Sha256Of(a) := X.Done(true, at)]
    ensures var e := X.After(answered, X.Collecting);
            && !X.AnyPending(e.server.publications) && X.NewestReleased(e.server.publications) == Some(a)
            && e.disk == answered.disk.(inbox := e.server.inbox)
  {
    hide X.NewestReleased, X.Settle, X.CollectRows, X.ExchangeInv;
    PendingParts(book, w);
    X.CollectLast(answered.server);
    X.SettledFacts(answered.server, Planning.Released, answered.server.outbox[Sha256Of(a)].at);
  }

  // ---------------------------------------------------------------- a crash that forgets, a crash that unsettles

  /** The first publish of a repository, cut right after the database link. Another plan can still be published, but
      cannot tell which release was current, and its own publish may be cut so that a retry ends with other links. */
  lemma FirstPublishForgets(book: Book, d: Disk, p: PlanId, q: PlanId, order: ScanOrder, next: ScanOrder,
                            again: ScanOrder) returns (k: nat, m: nat)
    requires Inv(d, book) && d.links == map[] && p != q
    requires NamesFixed(book, d, p) && PublishScript(d, p).ok
    requires NamesFixed(book, d, q) && PublishScript(d, q).ok && !Committed(d, q)
    ensures k <= |PublishSteps(d, p, order)|
    ensures var e := Run(d, PublishSteps(d, p, order)[..k]);
            && Inv(e, book) && NamesFixed(book, e, q) && PublishScript(e, q).ok && !RemembersPrevious(e, q)
            && m <= |PublishSteps(e, q, next)|
            && Retried(e, q, next, m, again).links != Run(e, PublishSteps(e, q, next)).links
  {
    hide Run, PublishSteps, PublishScript, Inv, NamesFixed, PrepareScript;
    var e;
    k, e := CutAfterDatabase(book, d, p, order);
    LinkedPrefix(d, p, 4);
    PublishAgain(book, d, e, q) by { GrownOffers(d, e, p, q); }
    m := RetryLosesPrevious(book, e, q, next, again);
  }

  lemma GrownOffers(d: Disk, e: Disk, p: PlanId, q: PlanId)
    requires Grown(d, e, p) && p != q
    ensures Offers(d, e, q)
  {
    assert q in e.releases <==> q in e.releases - {p};
    assert q in d.releases <==> q in d.releases - {p};
    if q in e.releases { assert (e.releases - {p})[q] == (d.releases - {p})[q]; }
  }

  /** A publish over another current release, cut right after the database link: the links disagree. Activating the
      current release now changes links, and two rollbacks do not restore them. */
  lemma CutPublishUnsettles(book: Book, d: Disk, p: PlanId, order: ScanOrder) returns (k: nat)
    requires Inv(d, book) && NamesFixed(book, d, p) && PublishScript(d, p).ok && Current in d.links
        && d.links[Current] != p
    ensures k <= |PublishSteps(d, p, order)|
    ensures var e := Run(d, PublishSteps(d, p, order)[..k]);
            && Inv(e, book) && !Settled(e) && Current in e.links && e.links[Current] == d.links[Current]
            && Run(e, ActivateScript(e, e.links[Current]).steps).links != e.links
            && (Previous in e.links ==>
                  var once := Run(e, RollbackScript(e).steps); Run(once, RollbackScript(once).steps).links != e.links)
  {
    hide Run, PublishSteps, PublishScript, Inv, NamesFixed, ActivateScript, RollbackScript;
    var e;
    k, e := CutAfterDatabase(book, d, p, order);
    LinkedPrefix(d, p, 4);
    assert |Targets(d, p)| == 6;
    DatabaseElsewhere(e, p);
    LinkedMayActivate(book, e);
    ActivateCurrentIsIdle(e);
    if Previous in e.links { RollbackTwice(e); }
  }

  lemma DatabaseElsewhere(e: Disk, p: PlanId)
    requires Db in e.links && e.links[Db] == p && Current in e.links && e.links[Current] != p
    ensures !Settled(e)
  {
    assert Db in [DbSig, FilesSig, Files, Db];
  }

  // ---------------------------------------------------------------- remains that block a plan

  lemma {:induction false} UnlinkPrefix(r: ReleaseDirectory, id: PlanId, inside: seq<ReleaseFile>, i: nat)
    requires i <= |inside|
    ensures UnlinkSteps(r, id, inside[..i]) <= UnlinkSteps(r, id, inside)
  {
    if i < |inside| {
      var before := inside[..|inside| - 1];
      assert before[..i] == inside[..i];
      UnlinkPrefix(r, id, before, i);
    } else {
      assert inside[..i] == inside;
    }
  }

  /** A pruning cut after the first file of an old release leaves five of its files. */
  lemma CutPruneLeaves(book: Book, d: Disk, order: ScanOrder, r: PlanId) returns (k: nat)
    requires Inv(d, book) && Lists(d, order) && KeptReleases(d) != {} && r !in KeptReleases(d)
    requires r in d.releases && d.releases[r] == ReleaseFor(d.keyring, r)
    ensures k <= |PruneScript(d, order).steps|
    ensures var e := Run(d, PruneScript(d, order).steps[..k]);
            r in e.releases && !Vacant(e, r) && !Served(e, r)
  {
    hide Apply, Run, Inv, Served;
    KeptIsServed(book, d);
    var i :| 0 <= i < |order.releases| && order.releases[i] == r;
    var first := RemoveReleasesSteps(d, order, order.releases[..i]);
    assert Manifest in order.inside;
    var f := order.inside[0];
    InRelease(d.keyring, r, f);
    k := |first| + 1;
    RemovesNext(d, order, i, r);
    var steps := PruneScript(d, order).steps;
    assert steps[..k] == first + [UnlinkReleaseFile(r, f)];
    Signer.NotYetRemoved(d, order, order.releases, i);
    RunAppend(d, first, [UnlinkReleaseFile(r, f)]);
    RunOne(Run(d, first), UnlinkReleaseFile(r, f));
    OneFileLess(Run(d, first), d.keyring, r, f);
  }

  lemma InRelease(keyring: Keyring, r: PlanId, f: ReleaseFile)
    ensures f in ReleaseFor(keyring, r)
  {
    Signer.AllReleaseFiles(f);
  }

  lemma RemovesNext(d: Disk, order: ScanOrder, i: nat, r: PlanId)
    requires i < |order.releases| && order.releases[i] == r && r in d.releases && r !in KeptReleases(d)
    requires |order.inside| > 0 && order.inside[0] in d.releases[r] && KeptReleases(d) != {} && KeptReadable(d)
    ensures RemoveReleasesSteps(d, order, order.releases[..i]) + [UnlinkReleaseFile(r, order.inside[0])]
            <= PruneScript(d, order).steps
  {
    var upTo := order.releases[..i + 1];
    assert upTo[..i] == order.releases[..i];
    Signer.RemovePrefix(d, order, order.releases, i + 1);
    UnlinkPrefix(d.releases[r], r, order.inside, 1);
    assert order.inside[..1][..0] == [];
    assert UnlinkSteps(d.releases[r], r, order.inside[..1]) == [UnlinkReleaseFile(r, order.inside[0])];
  }

  lemma OneFileLess(d: Disk, keyring: Keyring, r: PlanId, f: ReleaseFile)
    requires r in d.releases && d.releases[r] == ReleaseFor(keyring, r) && f in d.releases[r]
    ensures var e := Apply(d, UnlinkReleaseFile(r, f)); r in e.releases && !Vacant(e, r) && !Served(e, r)
  {
    var e := Apply(d, UnlinkReleaseFile(r, f));
    var other := if f == Manifest then Database else Manifest;
    assert other in e.releases[r];
    assert f !in e.releases[r] && f in ReleaseFor(e.keyring, r);
  }

  /** The same within a publish of `b`: cut in its pruning, with `b` committed and an old release in pieces. */
  lemma CutPublishLeaves(book: Book, d: Disk, b: PlanId, order: ScanOrder, r: PlanId) returns (k: nat, j: nat)
    requires Inv(d, book) && NamesFixed(book, d, b) && X.Fresh(d, b) && r != b && !X.Spares(d, b, r)
    requires r in d.releases && d.releases[r] == ReleaseFor(d.keyring, r)
    requires Lists(Run(d, PublishScript(d, b).steps), order)
    ensures k <= |PublishSteps(d, b, order)|
    ensures var e := Run(d, PublishSteps(d, b, order)[..k]);
            && Inv(e, book) && Switching(d, e, b, j) && r in e.releases && !Vacant(e, r) && !Served(e, r)
  {
    hide Apply, Run, PublishScript, PruneScript, Inv, NamesFixed, Served, Lists, X.Spares, Switching, Vacant;
    ScriptOk(d, b);
    var script := PublishScript(d, b).steps;
    var mid := Run(d, script);
    PublishEnds(book, d, b);
    X.KeptAfterSwitch(d, mid, b, r);
    assert mid.links[Current] == b && b in KeptReleases(mid) by { X.KeptAre(mid, b); CurrentAfter(d, mid, b); }
    var prune := PruneScript(mid, order).steps;
    var cut := CutPruneLeaves(book, mid, order, r);
    j := CutPrune(book, d, b, order, cut);
    k := |script| + cut;
    assert PublishSteps(d, b, order) == script + prune;
    CutRun(d, script, prune, k);
    assert script[..|script|] == script && prune[..0] == [];
    Signer.RunEmpty(mid);
  }

  lemma CurrentAfter(d: Disk, mid: Disk, b: PlanId)
    requires mid.links == Switched(d, b)
    ensures Current in mid.links && mid.links[Current] == b
  {
  }

  /** A plan in whose place there is something that is not its release cannot be published. */
  lemma RemainsBlock(book: Book, d: Disk, r: PlanId)
    requires Inv(d, book) && !Vacant(d, r) && !Served(d, r)
    ensures !PublishScript(d, r).ok
  {
    hide Run, PrepareScript, Inv, Served, Activatable;
    ActivatableIsServed(book, d, r);
    if PublishScript(d, r).ok && !Committed(d, r) { PublishShape(d, r); }
  }

  /** The machine stops in the pruning after `b`. */
  function Stopped(w: X.World, b: PlanId, order: ScanOrder, k: nat): X.World {
    X.After(w, X.SignerTurn(Signer.Turn(b, order, k, Signer.Silent)))
  }

  ghost predicate InPieces(d: Disk, r: PlanId) {
    r in d.releases && !Vacant(d, r) && !Served(d, r)
  }

  lemma SamePieces(d: Disk, e: Disk, r: PlanId)
    requires InPieces(d, r) && e.keyring == d.keyring && e.hot == d.hot && e.signatures == d.signatures
        && e.releases == d.releases
    ensures InPieces(e, r)
  {
    if Served(e, r) { X.ServedElsewhere(e, d, r); }
  }

  /** A retry on the committed path touches links only, so pieces stay where they are. */
  lemma FinishedFacts(book: Book, w: X.World, d: Disk, b: PlanId, order: ScanOrder, j: nat, r: PlanId)
    requires X.ExchangeInv(book, w) && X.Waiting(w.server) == Some(b) && Switching(d, w.disk, b, j)
        && InPieces(w.disk, r)
    ensures var e := Finished(w, b, order);
            && X.ExchangeInv(book, e) && !X.AnyPending(e.server.publications) && InPieces(e.disk, r)
  {
    hide Run, PublishSteps, PublishScript, Inv, Served, X.ExchangeInv, X.Collect, InPieces, Activatable, LinkSteps,
        Targets;
    PendingParts(book, w);
    X.ExchangeInvOf(book, w);
    RetryCommitted(book, w.disk, b, order);
    PublishParts(w.disk, b, order);
    TargetsServed(book, w.disk, b);
    LinksRun(w.disk, Targets(w.disk, b));
    var steps := PublishSteps(w.disk, b, order);
    assert steps[..|steps|] == steps;
    var t := Signer.Turn(b, order, |steps|, Signer.Success);
    var answered := X.After(w, X.SignerTurn(t));
    assert answered.disk == Run(w.disk, steps);
    SamePieces(w.disk, answered.disk, r);
    X.EventKeeps(book, w, X.SignerTurn(t));
    assert X.InTime(answered.server) by { AnsweredInTime(book, w, answered, b); }
    X.EventKeeps(book, answered, X.Collecting);
    SamePieces(answered.disk, Finished(w, b, order).disk, r);
    CollectedAll(book, answered, b);
  }

  lemma AnsweredInTime(book: Book, w: X.World, answered: X.World, b: PlanId)
    requires X.ExchangeInv(book, w) && X.Waiting(w.server) == Some(b)
    requires answered.server == w.server.(outbox := answered.server.outbox) && b in answered.server.outbox
    ensures X.InTime(answered.server)
  {
    hide Inv, NamesFixed, Served, X.NewestReleased, X.Handed, PlanByBook;
    forall p <- answered.server.publications | p.state == Planning.Pending
        ensures Sha256Of(p.plan) in answered.server.outbox {
      var i :| 0 <= i < |w.server.publications| && w.server.publications[i] == p;
    }
  }

  lemma CollectedAll(book: Book, w: X.World, b: PlanId)
    requires X.ExchangeInv(book, w) && b in w.server.outbox
    ensures !X.AnyPending(X.With(w, X.Collect(w.server)).server.publications)
  {
    hide Inv, NamesFixed, Served, X.NewestReleased, X.Handed, PlanByBook, X.CollectRows, X.Settle;
    var s := w.server;
    X.LastPending(s.publications);
    X.CollectLast(s);
    assert X.AnyPending(s.publications);
    var outcome := s.outbox[b];
    X.SettledFacts(s, if outcome.published then Planning.Released else Planning.Declined, outcome.at);
  }

  /** Main result about remains: `b` waits, and an old release `r` is whole and about to be pruned. The machine may stop
      in that pruning so that, after the retry succeeded and the plan of `r` was written again, the signer cannot
      publish it. */
  lemma InterruptedPruneBlocks(book: Book, w: X.World, b: PlanId, order: ScanOrder, again: ScanOrder, r: PublishPlan,
                               files: map<string, PackageFile>) returns (k: nat)
    requires X.ExchangeInv(book, w) && X.Waiting(w.server) == Some(b) && X.Fresh(w.disk, b)
    requires Lists(Run(w.disk, PublishScript(w.disk, b).steps), order)
    requires Sha256Of(r) != b && !X.Spares(w.disk, b, Sha256Of(r))
    requires Sha256Of(r) in w.disk.releases && w.disk.releases[Sha256Of(r)] == ReleaseFor(w.disk.keyring, Sha256Of(r))
    requires PlanByBook(book, r) && forall a <- r.artifacts :: a.file in files && files[a.file] == book(a.file)
    ensures var e := X.After(Finished(Stopped(w, b, order, k), b, again), X.Writing(r, files));
            && X.ExchangeInv(book, e) && X.Waiting(e.server) == Some(Sha256Of(r)) && InPieces(e.disk, Sha256Of(r))
            && !PublishScript(e.disk, Sha256Of(r)).ok
  {
    hide Run, PublishSteps, PublishScript, Inv, NamesFixed, Served, Lists, X.Fresh, X.Spares, X.ExchangeInv, InPieces,
        Finished, Switching, X.Brings, PlanByBook;
    var id := Sha256Of(r);
    X.ExchangeInvOf(book, w);
    WaitingNamesFixed(book, w);
    var j;
    k, j := CutPublishLeaves(book, w.disk, b, order, id);
    var stopped := Stopped(w, b, order, k);
    assert InPieces(stopped.disk, id) by { StoppedPieces(w, b, order, k, id); }
    StoppedFacts(book, w, b, order, k);
    FinishedFacts(book, stopped, w.disk, b, again, j, id);
    var done := Finished(stopped, b, again);
    AllBrought(book, done.server, r, files);
    X.EventKeeps(book, done, X.Writing(r, files));
    var e := X.After(done, X.Writing(r, files));
    SamePieces(done.disk, e.disk, id);
    WrittenWaits(book, done, r, files);
    X.ExchangeInvOf(book, e);
    assert InPieces(e.disk, id);
    PiecesBlock(book, e.disk, id);
  }

  lemma PiecesBlock(book: Book, d: Disk, r: PlanId)
    requires Inv(d, book) && InPieces(d, r)
    ensures !PublishScript(d, r).ok
  {
    hide Inv, Served, PublishScript, Vacant;
    RemainsBlock(book, d, r);
  }

  lemma WaitingNamesFixed(book: Book, w: X.World)
    requires X.ExchangeInv(book, w) && X.Waiting(w.server).Some?
    ensures NamesFixed(book, w.disk, X.Waiting(w.server).value)
  {
    hide Inv, NamesFixed, Served, X.NewestReleased, X.Handed, PlanByBook;
    X.LastPending(w.server.publications);
  }

  lemma StoppedPieces(w: X.World, b: PlanId, order: ScanOrder, k: nat, r: PlanId)
    requires X.Waiting(w.server) == Some(b) && k <= |PublishSteps(w.disk, b, order)|
    requires var e := Run(w.disk, PublishSteps(w.disk, b, order)[..k]);
        r in e.releases && !Vacant(e, r) && !Served(e, r)
    ensures InPieces(Stopped(w, b, order, k).disk, r)
  {
    hide Run, PublishSteps, Served, Vacant;
  }

  lemma StoppedFacts(book: Book, w: X.World, b: PlanId, order: ScanOrder, k: nat)
    requires X.ExchangeInv(book, w) && X.Waiting(w.server) == Some(b) && k <= |PublishSteps(w.disk, b, order)|
    ensures var e := Stopped(w, b, order, k);
            && X.ExchangeInv(book, e) && e.server == w.server
                && e.disk == Run(w.disk, PublishSteps(w.disk, b, order)[..k])
  {
    hide Run, PublishSteps, X.ExchangeInv;
    X.EventKeeps(book, w, X.SignerTurn(Signer.Turn(b, order, k, Signer.Silent)));
  }

  lemma AllBrought(book: Book, s: X.Server, r: PublishPlan, files: map<string, PackageFile>)
    requires PlanByBook(book, r) && forall a <- r.artifacts :: a.file in files && files[a.file] == book(a.file)
    ensures X.Brings(book, s, r, files)
  {
    hide X.HeldDigests;
  }

  lemma WrittenWaits(book: Book, w: X.World, r: PublishPlan, files: map<string, PackageFile>)
    requires X.ExchangeInv(book, w) && !X.AnyPending(w.server.publications)
    ensures X.Waiting(X.After(w, X.Writing(r, files)).server) == Some(Sha256Of(r))
  {
    hide Inv, NamesFixed, Served, X.NewestReleased, X.Handed, PlanByBook;
  }

  // ---------------------------------------------------------------- other bytes under a published name

  /** The plan wants the package as it is published, and its signature is not a signature of it. */
  ghost predicate Torn(d: Disk, id: PlanId, a: ArtifactRecord) {
    a in id.plan.artifacts && Reusable(d, a) && !Verified(d, a.file) && !Committed(d, id)
  }

  lemma {:induction false} TornCollect(d: Disk, id: PlanId, artifacts: seq<ArtifactRecord>, a: ArtifactRecord)
    requires a in artifacts && Reusable(d, a) && !Verified(d, a.file)
    ensures !CollectScript(d, id, artifacts).ok
  {
    if a != artifacts[|artifacts| - 1] { TornCollect(d, id, artifacts[..|artifacts| - 1], a); }
  }

  /** No run gets past such a package, and none mends it. */
  lemma TornStays(d: Disk, id: PlanId, a: ArtifactRecord, order: ScanOrder, cut: nat)
    requires Torn(d, id, a)
    ensures !PublishScript(d, id).ok
    ensures var e := Try(d, id, order, cut); Torn(e, id, a) && e == d.(staging := e.staging)
  {
    hide Apply, Run, CollectScript, RepoAdd;
    TornCollect(d, id, id.plan.artifacts, a);
    Signer.CollectStays(d, id, id.plan.artifacts);
    var steps := PublishSteps(d, id, order);
    assert forall s <- steps :: Signer.StagingOnly(s);
    Signer.StagingOnlyRun(d, if cut <= |steps| then steps[..cut] else steps);
  }

  function Try(d: Disk, id: PlanId, order: ScanOrder, cut: nat): Disk {
    var steps := PublishSteps(d, id, order);
    Run(d, if cut <= |steps| then steps[..cut] else steps)
  }

  /** The plan is tried again and again, and each try is cut somewhere or runs to its end. */
  function Tried(d: Disk, id: PlanId, tries: seq<(ScanOrder, nat)>): Disk {
    if |tries| == 0 then d else
    Try(Tried(d, id, tries[..|tries| - 1]), id, tries[|tries| - 1].0, tries[|tries| - 1].1)
  }

  lemma {:induction false} TornForever(d: Disk, id: PlanId, a: ArtifactRecord, tries: seq<(ScanOrder, nat)>)
    requires Torn(d, id, a)
    ensures var e := Tried(d, id, tries);
            Torn(e, id, a) && !PublishScript(e, id).ok && e == d.(staging := e.staging)
  {
    hide Torn, Try, PublishScript;
    if |tries| > 0 {
      var before := Tried(d, id, tries[..|tries| - 1]);
      TornForever(d, id, a, tries[..|tries| - 1]);
      TornStays(before, id, a, tries[|tries| - 1].0, tries[|tries| - 1].1);
    }
    var e := Tried(d, id, tries);
    TornStays(e, id, a, ScanOrder([], [], []), 0);
  }

  lemma {:induction false} MovesPrefix(id: PlanId, files: seq<string>, i: nat)
    requires i < |files|
    ensures MoveSteps(id, files[..i]) + [MovePackage(id, files[i])] <= MoveSteps(id, files)
  {
    var before := files[..|files| - 1];
    if i < |before| {
      assert before[..i] == files[..i];
      MovesPrefix(id, before, i);
    } else {
      assert files[..i] == before;
    }
  }

  /** All is staged and the first `i` packages are moved. */
  function Near(d: Disk, id: PlanId, i: nat): Disk
    requires i <= |FilesToMove(d, id)|
  {
    Run(Run(d, Staging(d, id)), MoveSteps(id, FilesToMove(d, id)[..i]))
  }

  lemma NearMoved(d: Disk, id: PlanId, i: nat)
    requires ReadablePlan(d, id) && PrepareScript(d, id).ok && KeyringApart(d, id) && i < |FilesToMove(d, id)|
    ensures var mid, near, files := Run(d, Staging(d, id)), Near(d, id, i), FilesToMove(d, id);
            && mid == d.(staging := mid.staging) && Moved(LocalBook(d, id), mid, near, files[..i])
            && near == mid.(hot := near.hot, signatures := near.signatures, staging := near.staging)
            && Staged(near, id, files[i..]) && StagedRight(LocalBook(d, id), near, id) && files[i] !in files[..i]
  {
    hide Run, CollectScript, PrepareScript, LocalBook, Staged, Moved, Executable, StagedRight, FilesToMove;
    var files := FilesToMove(d, id);
    StagingIsReady(d, id);
    assert files[..i] + files[i..] == files;
    MovesBring(LocalBook(d, id), Run(d, Staging(d, id)), id, files[..i], files[i..]);
    FilesApart(files, i);
  }

  lemma CutAfterRename(d: Disk, id: PlanId, order: ScanOrder, i: nat) returns (k: nat)
    requires ReadablePlan(d, id) && !Committed(d, id) && PrepareScript(d, id).ok && KeyringApart(d, id)
    requires i < |FilesToMove(d, id)|
    ensures k <= |PrepareScript(d, id).steps| <= |PublishSteps(d, id, order)|
    ensures Run(d, PublishSteps(d, id, order)[..k]) == Apply(Near(d, id, i), MovePackage(id, FilesToMove(d, id)[i]))
  {
    hide Apply, Run, PrepareScript, PublishSteps, FilesToMove, Executable;
    var files, staging := FilesToMove(d, id), Staging(d, id);
    StagingIsReady(d, id);
    MovesPrefix(id, files, i);
    var first, rename := MoveSteps(id, files[..i]), MovePackage(id, files[i]);
    k := |staging| + |first| + 1;
    PreparesFirst(d, id, order);
    assert PublishSteps(d, id, order)[..k] == staging + (first + [rename]);
    RunAppend(d, staging, first + [rename]);
    RunAppend(Run(d, staging), first, [rename]);
    RunOne(Near(d, id, i), rename);
  }

  /** A publish with other bytes for a published name, cut between the renames of the package and of its signature. */
  lemma CutBetweenRenames(d: Disk, id: PlanId, a: ArtifactRecord, order: ScanOrder) returns (k: nat)
    requires ReadablePlan(d, id) && !Committed(d, id) && PrepareScript(d, id).ok && KeyringApart(d, id)
    requires a in id.plan.artifacts && Verified(d, a.file) && !Matches(d.hot[a.file], a)
    ensures k <= |PublishSteps(d, id, order)|
    ensures var e := Run(d, PublishSteps(d, id, order)[..k]);
            Torn(e, id, a) && e == d.(hot := e.hot, signatures := e.signatures, staging := e.staging)
  {
    hide Apply, Run, PublishSteps, CollectScript, PrepareScript, LocalBook, Staged, Moved, StagedRight, NewFiles;
    CollectOk(d, id);
    LocalNames(d, id);
    NewOrReusable(d, id.plan.artifacts, a);
    var files := FilesToMove(d, id);
    assert a.file in files;
    var i :| 0 <= i < |files| && files[i] == a.file;
    NearMoved(d, id, i);
    k := CutAfterRename(d, id, order, i);
    OneRename(LocalBook(d, id), d, Run(d, Staging(d, id)), Near(d, id, i), id, files, i, a);
  }

  lemma CollectOk(d: Disk, id: PlanId)
    requires PrepareScript(d, id).ok
    ensures CollectScript(d, id, id.plan.artifacts).ok
  {
    PrepareShape(d, id);
  }

  lemma PreparesFirst(d: Disk, id: PlanId, order: ScanOrder)
    requires ReadablePlan(d, id) && !Committed(d, id)
    ensures PrepareScript(d, id).steps <= PublishSteps(d, id, order)
  {
    hide Run, PrepareScript, ActivateScript, PruneScript;
  }

  lemma FilesApart(files: seq<string>, i: nat)
    requires NoRepeats(files) && i < |files|
    ensures files[i] !in files[..i]
  {
  }

  lemma OneRename(book: Book, d: Disk, mid: Disk, near: Disk, id: PlanId, files: seq<string>, i: nat, a: ArtifactRecord)
    requires i < |files| && mid == d.(staging := mid.staging) && Moved(book, mid, near, files[..i])
    requires near == mid.(hot := near.hot, signatures := near.signatures, staging := near.staging)
    requires Staged(near, id, files[i..]) && StagedRight(book, near, id) && files[i] !in files[..i]
    requires a in id.plan.artifacts && files[i] == a.file && Matches(book(a.file), a)
    requires Verified(d, a.file) && !Matches(d.hot[a.file], a) && !Committed(d, id)
    ensures var e := Apply(near, MovePackage(id, files[i]));
            Torn(e, id, a) && e == d.(hot := e.hot, signatures := e.signatures, staging := e.staging)
  {
    assert files[i] in files[i..];
  }

  /** Main result about rebuilt names: release `z` serves a package, and a plan has other bytes under its file name.
      The machine may stop so that no later try of that plan succeeds, while the link to `z` stays and `z` has a
      package whose signature does not fit. No meaning of file names covers such a plan. */
  lemma RebuiltNameTears(d: Disk, id: PlanId, a: ArtifactRecord, z: PlanId, b: ArtifactRecord, order: ScanOrder)
    returns (k: nat)
    requires ReadablePlan(d, id) && !Committed(d, id) && PrepareScript(d, id).ok && KeyringApart(d, id)
    requires Served(d, z) && b in z.plan.artifacts && a in id.plan.artifacts && a.file == b.file
    requires !Matches(d.hot[a.file], a)
    ensures k <= |PublishSteps(d, id, order)|
    ensures forall tries ::
              var e := Tried(Run(d, PublishSteps(d, id, order)[..k]), id, tries);
              !PublishScript(e, id).ok && !Served(e, z) && e.links == d.links && e.releases == d.releases
    ensures forall book :: Inv(d, book) ==> !NamesFixed(book, d, id)
  {
    hide Run, PublishSteps, PublishScript, PrepareScript, ReadablePlan, Tried;
    assert b in z.plan.artifacts + [d.keyring.record];
    k := CutBetweenRenames(d, id, a, order);
    var torn := Run(d, PublishSteps(d, id, order)[..k]);
    forall tries
      ensures var e := Tried(torn, id, tries);
              !PublishScript(e, id).ok && !Served(e, z) && e.links == d.links && e.releases == d.releases
    {
      TornForever(torn, id, a, tries);
      TornUnserved(Tried(torn, id, tries), id, a, z, b);
    }
  }

  lemma TornUnserved(d: Disk, id: PlanId, a: ArtifactRecord, z: PlanId, b: ArtifactRecord)
    requires Torn(d, id, a) && b in z.plan.artifacts && a.file == b.file
    ensures !Served(d, z)
  {
    assert b in z.plan.artifacts + [d.keyring.record];
  }

  // ---------------------------------------------------------------- when the renames spare a release

  /** The package file belongs to the release. */
  predicate Uses(d: Disk, z: PlanId, file: string) {
    exists a <- z.plan.artifacts + [d.keyring.record] :: a.file == file
  }

  /** The call touches nothing that the release `z` uses. */
  ghost predicate Sparing(d: Disk, z: PlanId, s: Step) {
    match s
    case MovePackage(_, file) => !Uses(d, z, file)
    case MoveSignature(_, file) => !Uses(d, z, file)
    case Commit(id) => id != z
    case UnlinkReleaseFile(_, _) => false
    case RemoveReleaseDirectory(_) => false
    case RemovePackage(_) => false
    case RemoveSignature(_) => false
    case _ => true
  }

  lemma {:induction false} SparingRun(d: Disk, z: PlanId, steps: seq<Step>)
    requires Served(d, z) && forall s <- steps :: Sparing(d, z, s)
    ensures Served(Run(d, steps), z) && Run(d, steps).keyring == d.keyring
  {
    hide Apply, Served, Sparing;
    if |steps| > 0 {
      var before := Run(d, steps[..|steps| - 1]);
      SparingRun(d, z, steps[..|steps| - 1]);
      SameUses(d, before, z, steps[|steps| - 1]);
      SparingStep(before, z, steps[|steps| - 1]);
    }
  }

  lemma SameUses(d: Disk, e: Disk, z: PlanId, s: Step)
    requires e.keyring == d.keyring
    ensures Sparing(e, z, s) == Sparing(d, z, s)
  {
  }

  lemma SparingStep(d: Disk, z: PlanId, s: Step)
    requires Served(d, z) && Sparing(d, z, s)
    ensures Served(Apply(d, s), z) && Apply(d, s).keyring == d.keyring
  {
    var e := Apply(d, s);
    forall a <- z.plan.artifacts + [d.keyring.record]
      ensures a.file in e.hot && Matches(e.hot[a.file], a) && Verified(e, a.file)
    {
      assert Uses(d, z, a.file);
      assert a.file in d.hot && Matches(d.hot[a.file], a) && Verified(d, a.file);
    }
  }

  lemma {:induction false} LinksSpare(d: Disk, z: PlanId, e: Disk, targets: seq<(LinkName, PlanId)>)
    ensures forall s <- LinkSteps(e, targets) :: Sparing(d, z, s)
  {
    if |targets| > 0 { LinksSpare(d, z, e, targets[..|targets| - 1]); }
  }

  lemma {:induction false} MovesSpare(d: Disk, z: PlanId, id: PlanId, files: seq<string>)
    requires forall file <- files :: !Uses(d, z, file)
    ensures forall s <- MoveSteps(id, files) :: Sparing(d, z, s)
  {
    if |files| > 0 { MovesSpare(d, z, id, files[..|files| - 1]); }
  }

  /** Where no file that is moved belongs to `z`, no call before the pruning touches it. */
  lemma ScriptSpares(d: Disk, id: PlanId, z: PlanId)
    requires id != z && PrepareScript(d, id).ok && forall file <- FilesToMove(d, id) :: !Uses(d, z, file)
    ensures forall s <- PublishScript(d, id).steps :: Sparing(d, z, s)
  {
    hide Apply, Run, Uses, CollectScript, FilesToMove, Activatable, Targets, LinkSteps, IndexAndSeal;
    PrepareShape(d, id);
    Signer.CollectStays(d, id, id.plan.artifacts);
    MovesSpare(d, z, id, FilesToMove(d, id));
    StagingSpares(d, z, id);
    LinksSpare(d, z, d, Targets(d, id));
    var mid := Run(d, PrepareScript(d, id).steps + [Commit(id)]);
    LinksSpare(d, z, mid, Targets(mid, id));
  }

  lemma StagingSpares(d: Disk, z: PlanId, id: PlanId)
    ensures forall s <- GatherScript(d, id).steps + IndexAndSeal(d, id) :: Sparing(d, z, s)
  {
    hide CollectScript, Uses;
    Signer.CollectStays(d, id, id.plan.artifacts);
  }

  /** What is published under the names that both use is what the plan wants. */
  predicate NamesAgree(d: Disk, id: PlanId, z: PlanId) {
    && KeyringFound(d)
    && forall a <- id.plan.artifacts :: Uses(d, z, a.file) && a.file in d.hot ==> Matches(d.hot[a.file], a)
  }

  /** Exactly when a publish spares a served release at every call before the pruning: what is published under the names
      that both use, and the keyring, is what the plan wants. */
  lemma RenamesSpareExactly(d: Disk, id: PlanId, z: PlanId)
    requires ReadablePlan(d, id) && !Committed(d, id) && PrepareScript(d, id).ok && KeyringApart(d, id)
    requires Served(d, z)
    ensures NamesAgree(d, id, z) <==>
              forall k :: 0 <= k <= |PublishScript(d, id).steps| ==> Served(Run(d, PublishScript(d, id).steps[..k]), z)
  {
    hide Run, PublishScript, PrepareScript, ReadablePlan, Served, NamesAgree;
    var steps := PublishScript(d, id).steps;
    if NamesAgree(d, id, z) {
      MovesAreApart(d, id, z);
      ServedAnother(d, id, z);
      ScriptSpares(d, id, z);
      forall k | 0 <= k <= |steps| ensures Served(Run(d, steps[..k]), z) { SparingRun(d, z, steps[..k]); }
    } else {
      var k := RenameBreaks(d, id, z);
    }
  }

  lemma ServedAnother(d: Disk, id: PlanId, z: PlanId)
    requires Served(d, z) && !Committed(d, id)
    ensures id != z
  {
  }

  lemma MovesAreApart(d: Disk, id: PlanId, z: PlanId)
    requires Served(d, z) && NamesAgree(d, id, z)
    ensures forall file <- FilesToMove(d, id) :: !Uses(d, z, file)
  {
    forall file <- FilesToMove(d, id) ensures !Uses(d, z, file) {
      var a := NewComesFromPlan(d, id.plan.artifacts, file);
      if Uses(d, z, file) { UsedIsVerified(d, z, file); }
    }
  }

  lemma UsedIsVerified(d: Disk, z: PlanId, file: string)
    requires Served(d, z) && Uses(d, z, file)
    ensures Verified(d, file)
  {
  }

  /** Otherwise there is a cut between the two renames of a file that both use. */
  lemma RenameBreaks(d: Disk, id: PlanId, z: PlanId) returns (k: nat)
    requires ReadablePlan(d, id) && !Committed(d, id) && PrepareScript(d, id).ok && KeyringApart(d, id)
    requires Served(d, z) && !NamesAgree(d, id, z)
    ensures k <= |PublishScript(d, id).steps| && !Served(Run(d, PublishScript(d, id).steps[..k]), z)
  {
    hide Run, PublishScript, PrepareScript, ReadablePlan, Served, LocalBook, CollectScript, NewFiles, KeyringFound;
    CollectOk(d, id);
    LocalNames(d, id);
    var file;
    if !KeyringFound(d) {
      file := d.keyring.record.file;
      KeyringDiffers(d, id, z);
    } else {
      var a :| a in id.plan.artifacts && Uses(d, z, a.file) && a.file in d.hot && !Matches(d.hot[a.file], a);
      file := a.file;
      UsedIsVerified(d, z, file);
      NewOrReusable(d, id.plan.artifacts, a);
    }
    k := TornAt(d, id, file);
    UnverifiedUnserves(d, Run(d, PublishScript(d, id).steps[..k]), z, file);
  }

  lemma KeyringDiffers(d: Disk, id: PlanId, z: PlanId)
    requires Served(d, z) && !KeyringFound(d)
    ensures var file := d.keyring.record.file;
            && file in FilesToMove(d, id) && Uses(d, z, file) && Verified(d, file)
            && LocalBook(d, id)(file) != d.hot[file]
  {
    assert d.keyring.record in z.plan.artifacts + [d.keyring.record];
  }

  lemma UnverifiedUnserves(d: Disk, e: Disk, z: PlanId, file: string)
    requires Uses(d, z, file) && e.keyring == d.keyring && !Verified(e, file)
    ensures !Served(e, z)
  {
  }

  /** The cut between the two renames of a file whose bytes change. */
  lemma TornAt(d: Disk, id: PlanId, file: string) returns (k: nat)
    requires ReadablePlan(d, id) && !Committed(d, id) && PrepareScript(d, id).ok && KeyringApart(d, id)
    requires file in FilesToMove(d, id) && Verified(d, file) && LocalBook(d, id)(file) != d.hot[file]
    ensures k <= |PublishScript(d, id).steps|
    ensures var e := Run(d, PublishScript(d, id).steps[..k]); e.keyring == d.keyring && !Verified(e, file)
  {
    hide Apply, Run, PublishSteps, PublishScript, PrepareScript, ReadablePlan, LocalBook, Staged, Moved, StagedRight,
        FilesToMove;
    var files := FilesToMove(d, id);
    var i :| 0 <= i < |files| && files[i] == file;
    NearMoved(d, id, i);
    var order := ScanOrder([], [], []);
    k := CutAfterRename(d, id, order, i);
    SameCut(d, id, order, k);
    KeyringAndInboxStay(d, PublishScript(d, id).steps[..k]);
    RenamedUnverified(LocalBook(d, id), d, Run(d, Staging(d, id)), Near(d, id, i), id, files, i);
  }

  lemma SameCut(d: Disk, id: PlanId, order: ScanOrder, k: nat)
    requires ReadablePlan(d, id) && !Committed(d, id) && k <= |PrepareScript(d, id).steps|
    ensures k <= |PublishScript(d, id).steps| <= |PublishSteps(d, id, order)|
    ensures PublishSteps(d, id, order)[..k] == PublishScript(d, id).steps[..k]
  {
    hide Run, PrepareScript, ActivateScript, PruneScript;
  }

  lemma RenamedUnverified(book: Book, d: Disk, mid: Disk, near: Disk, id: PlanId, files: seq<string>, i: nat)
    requires i < |files| && mid == d.(staging := mid.staging) && Moved(book, mid, near, files[..i])
    requires Staged(near, id, files[i..]) && StagedRight(book, near, id) && files[i] !in files[..i]
    requires Verified(d, files[i]) && book(files[i]) != d.hot[files[i]]
    ensures !Verified(Apply(near, MovePackage(id, files[i])), files[i])
  {
    assert files[i] in files[i..];
  }
}
