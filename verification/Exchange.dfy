/** The exchange between server and signer: plans go out one at a time, results come back, and the repository converges
    to the desired state. */
module Exchange {
  import opened Protocol
  import opened Store
  import opened Closure
  import opened Upload
  import opened Builds
  import opened Planning
  import Repository
  import CrashSafety
  import Convergence
  import Committing
  import Signer

  type Disk = Repository.Disk
  type PackageFile = Repository.PackageFile
  type InboxDirectory = Repository.InboxDirectory
  type Book = CrashSafety.Book

  /** What the signer sees of stored bytes: digest, length and package metadata. */
  type Inspect = Bytes -> PackageFile

  ghost predicate Reads(sha: Digest, inspect: Inspect) {
    forall bytes :: inspect(bytes).sha256 == sha(bytes) && inspect(bytes).size == |bytes|
  }

  const FAILED_PLAN_BACKOFF_SECONDS: nat := 15 * 60
  const SIGNER_TIMEOUT_SECONDS: nat := 60 * 60

  // ---------------------------------------------------------------- the server's half

  /** A result file of the signer; one that does not parse counts as a failure. */
  datatype Outcome = Done(published: bool, at: nat) | Unreadable

  /** The build table, the publication table, and the two exchange directories. */
  datatype Server = Server(
    board: Board, publications: seq<Publication>, inbox: map<PlanId, InboxDirectory>, outbox: map<PlanId, Outcome>)

  function Settle(s: Server, i: nat, state: PublicationState, at: nat): Server
    requires i < |s.publications|
  {
    var row := s.publications[i];
    var id := Sha256Of(row.plan);
    s.(publications := s.publications[i := row.(state := state, finishedAt := at)], inbox := s.inbox - {id},
        outbox := s.outbox - {id})
  }

  /** A pending publication ends with the signer's result, or as failed when there is none for an hour. */
  function CollectRow(s: Server, i: nat): Server
    requires i < |s.publications|
  {
    var row := s.publications[i];
    var id := Sha256Of(row.plan);
    if row.state != Pending then s
    else if id in s.outbox then
      (match s.outbox[id]
       case Done(published, at) => Settle(s, i, if published then Released else Declined, at)
       case Unreadable => Settle(s, i, Declined, s.board.now))
    else if row.createdAt + SIGNER_TIMEOUT_SECONDS < s.board.now then Settle(s, i, Declined, s.board.now)
    else s
  }

  function CollectRows(s: Server, n: nat): (r: Server)
    requires n <= |s.publications|
    ensures |r.publications| == |s.publications|
  {
    if n == 0 then s else CollectRow(CollectRows(s, n - 1), n - 1)
  }

  function Collect(s: Server): Server {
    CollectRows(s, |s.publications|)
  }

  function NewestReleased(publications: seq<Publication>): (r: Option<PublishPlan>)
    ensures r.Some? ==> exists p <- publications :: p.state == Released && p.plan == r.value
  {
    if |publications| == 0 then None else
    var last := publications[|publications| - 1];
    if last.state == Released then Some(last.plan) else NewestReleased(publications[..|publications| - 1])
  }

  /** The digests the signer is taken to hold already. */
  function HeldDigests(publications: seq<Publication>): set<string> {
    var newest := NewestReleased(publications);
    if newest.Some? then set a | a in newest.value.artifacts :: a.sha256 else {}
  }

  /** Every source file is there to copy. */
  ghost predicate Copyable(b: Board, artifacts: seq<ArtifactRecord>, sources: map<string, nat>) {
    forall a <- artifacts :: a.file in sources && SlotOf(b, sources[a.file], a.file).stored.Some?
  }

  /** The files written next to the plan: the artifacts whose digests the newest released plan does not have. */
  ghost function Delta(b: Board, inspect: Inspect, artifacts: seq<ArtifactRecord>, sources: map<string, nat>,
      held: set<string>): map<string, PackageFile>
    requires Copyable(b, artifacts, sources)
  {
    map a | a in artifacts && a.sha256 !in held :: a.file := inspect(SlotOf(b, sources[a.file], a.file).stored.value)
  }

  ghost function Write(s: Server, inspect: Inspect, plan: PublishPlan, sources: map<string, nat>): Server
    requires Copyable(s.board, plan.artifacts, sources)
  {
    var files := Delta(s.board, inspect, plan.artifacts, sources, HeldDigests(s.publications));
    s.(inbox := s.inbox[Sha256Of(plan) := Repository.InboxDirectory(Some(plan), files)],
       publications := s.publications + [Publication(plan, Pending, s.board.now, 0)],
       board := s.board.(now := s.board.now + 1))
  }

  /** A build of the package runs or uploads, or is queued with everything it needs. */
  ghost predicate HasActive(revisions: seq<Revision>, b: Board, c: Closure, base: string) {
    exists i :: 0 <= i < |b.builds| && b.builds[i].base == base
                && (InProgress(b, i) || (b.builds[i].state == Queued && Ready(revisions, b, c, base)))
  }

  /** The newest publication is this plan, accepted, or rejected too recently to try again. */
  predicate Settled(publications: seq<Publication>, plan: PublishPlan, now: nat) {
    |publications| > 0 &&
    var last := publications[|publications| - 1];
    last.plan == plan && (last.state == Released
        || (last.state == Declined && last.finishedAt + FAILED_PLAN_BACKOFF_SECONDS > now))
  }

  predicate AnyPending(publications: seq<Publication>) {
    exists p <- publications :: p.state == Pending
  }

  /** Where the server sits before it decides about a plan. */
  function Refreshed(revisions: seq<Revision>, c: Closure, bases: seq<string>, s: Server): Server {
    var collected := Collect(s);
    collected.(board := Schedule(revisions, ExpireLeases(collected.board, |collected.board.builds|), c, bases))
  }

  /** What the round would publish, unless it has to wait or has nothing to do. */
  ghost function ToWrite(name: string, revisions: seq<Revision>, c: Closure, s: Server): Option<PublishPlan> {
    if (exists base <- c.members :: HasActive(revisions, s.board, c, base)) || AnyPending(s.publications) then None
    else
      var artifacts := PlannedArtifacts(revisions, s.board, c);
      if artifacts.None? then None else
      var plan := PublishPlan(PUBLISH_PLAN_FORMAT, name, artifacts.value);
      if (s.publications == [] && plan.artifacts == []) || Settled(s.publications, plan, s.board.now) then None
      else Some(plan)
  }

  /** One round of the reconciling loop. */
  ghost function Reconcile(inspect: Inspect, name: string, revisions: seq<Revision>, c: Closure, bases: seq<string>,
      sources: map<string, nat>, s: Server): Server {
    var r := Refreshed(revisions, c, bases, s);
    var plan := ToWrite(name, revisions, c, r);
    if plan.None? || !Copyable(r.board, plan.value.artifacts, sources) then r
    else Write(r, inspect, plan.value, sources)
  }

  // ---------------------------------------------------------------- both halves

  datatype World = World(server: Server, disk: Disk)

  /** The two sides look at the same inbox. */
  ghost predicate Coupled(w: World) {
    w.disk.inbox == w.server.inbox
  }

  ghost predicate PlanServed(d: Disk, plan: Option<PublishPlan>) {
    plan.Some? ==> CrashSafety.Served(d, Sha256Of(plan.value))
  }

  /** At most the newest publication is pending. The exchange directories hold at most its plan and its answer, and
      nothing when it is settled. */
  ghost predicate InOrder(s: Server) {
    && (forall i :: 0 <= i < |s.publications| - 1 ==> s.publications[i].state != Pending)
    && (if AnyPending(s.publications) then |s.publications| > 0 && InFlight(s)
        else s.inbox == map[] && s.outbox == map[])
  }

  ghost predicate InFlight(s: Server)
    requires |s.publications| > 0
  {
    var last := s.publications[|s.publications| - 1];
    var id := Sha256Of(last.plan);
    && (forall i :: i in s.inbox ==> i == id) && (forall i :: i in s.outbox ==> i == id)
    && id in s.inbox && s.inbox[id].plan == Some(last.plan) && (id in s.outbox ==> s.outbox[id].Done?)
  }

  /** The plan's directory holds the plan, and each artifact's file or a digest that the newest released plan has. */
  ghost predicate Handed(book: Book, s: Server, plan: PublishPlan) {
    var id := Sha256Of(plan);
    && id in s.inbox && s.inbox[id].plan == Some(plan)
    && (forall a <- plan.artifacts ::
          || (a.file in s.inbox[id].files && Repository.Matches(s.inbox[id].files[a.file], a))
          || a.sha256 in HeldDigests(s.publications))
    && forall a <- plan.artifacts | a.file in s.inbox[id].files :: s.inbox[id].files[a.file] == book(a.file)
  }

  /** While a plan is pending: it waits for the signer with what it needs, or it has its answer. */
  ghost predicate PendingOk(book: Book, w: World) {
    var s := w.server;
    |s.publications| > 0 &&
    var last := s.publications[|s.publications| - 1];
    var id := Sha256Of(last.plan);
    && (forall i :: i in s.inbox ==> i == id) && (forall i :: i in s.outbox ==> i == id)
    && Handed(book, s, last.plan) && CrashSafety.NamesFixed(book, w.disk, id)
    && (if id !in s.outbox then
          PlanServed(w.disk, NewestReleased(s.publications))
              || (CrashSafety.Served(w.disk, id) && Repository.ValidPlan(last.plan))
        else
          match s.outbox[id]
          case Done(published, _) => if published then CrashSafety.Served(w.disk, id)
              else PlanServed(w.disk, NewestReleased(s.publications))
          case Unreadable => false)
  }

  /** At most one publication is pending, and it is the newest. With nothing pending, the exchange directories are empty
      and the newest released plan is still served in whole. */
  ghost predicate ExchangeInv(book: Book, w: World) {
    var s := w.server;
    && Coupled(w) && CrashSafety.Inv(w.disk, book)
    && (forall p <- s.publications :: CrashSafety.PlanByBook(book, p.plan))
    && (forall i :: 0 <= i < |s.publications| - 1 ==> s.publications[i].state != Pending)
    && (if AnyPending(s.publications) then PendingOk(book, w)
        else s.inbox == map[] && s.outbox == map[] && PlanServed(w.disk, NewestReleased(s.publications)))
  }

  datatype Event =
    | Collecting
    | Writing(plan: PublishPlan, files: map<string, PackageFile>)
    | SignerTurn(turn: Signer.Turn)
    | RollbackRun(cut: nat)
    | Otherwise(board: Board)

  /** The pending plan, when the signer has not answered it. */
  function Waiting(s: Server): Option<PlanId> {
    if |s.publications| == 0 then None else
    var last := s.publications[|s.publications| - 1];
    var id := Sha256Of(last.plan);
    if last.state == Pending && id in s.inbox && id !in s.outbox then Some(id) else None
  }

  function Answered(outbox: map<PlanId, Outcome>, t: Signer.Turn, at: nat): map<PlanId, Outcome> {
    match t.answer
    case Silent => outbox
    case Success => outbox[t.id := Done(true, at)]
    case Failure => outbox[t.id := Done(false, at)]
  }

  /** The signer takes its turn at the waiting plan: a crash or an error cuts its run, and an error is answered as a
      failure. */
  function Signed(w: World, t: Signer.Turn): World {
    if Waiting(w.server) != Some(t.id) || !Signer.Allowed(w.disk, t) then w
    else World(w.server.(outbox := Answered(w.server.outbox, t, w.server.board.now)), Signer.AfterTurn(w.disk, t))
  }

  function RolledBack(d: Disk, cut: nat): Disk {
    var steps := Repository.RollbackScript(d).steps;
    Repository.Run(d, if cut <= |steps| then steps[..cut] else steps)
  }

  /** The server's half changed: the signer's inbox follows. */
  function With(w: World, s: Server): World {
    World(s, w.disk.(inbox := s.inbox))
  }

  function Written(s: Server, plan: PublishPlan, files: map<string, PackageFile>): Server {
    s.(inbox := s.inbox[Sha256Of(plan) := Repository.InboxDirectory(Some(plan), files)],
       publications := s.publications + [Publication(plan, Pending, s.board.now, 0)],
       board := s.board.(now := s.board.now + 1))
  }

  function After(w: World, e: Event): World {
    match e
    case Collecting => With(w, Collect(w.server))
    case Writing(plan, files) => With(w, Written(w.server, plan, files))
    case SignerTurn(turn) => Signed(w, turn)
    case RollbackRun(cut) => w.(disk := RolledBack(w.disk, cut))
    case Otherwise(board) => w.(server := w.server.(board := board))
  }

  /** The signer answers within the hour. */
  ghost predicate InTime(s: Server) {
    forall p <- s.publications | p.state == Pending ::
        Sha256Of(p.plan) in s.outbox || s.board.now <= p.createdAt + SIGNER_TIMEOUT_SECONDS
  }

  /** What a write brings: an artifact's file, matching its record, unless its digest is held already. Names stand for
      the contents the book says. */
  ghost predicate Brings(book: Book, s: Server, plan: PublishPlan, files: map<string, PackageFile>) {
    && CrashSafety.PlanByBook(book, plan)
    && (forall a <- plan.artifacts ::
        (a.file in files && Repository.Matches(files[a.file], a)) || a.sha256 in HeldDigests(s.publications))
    && (forall a <- plan.artifacts | a.file in files :: files[a.file] == book(a.file))
  }

  /** Pruning after a fresh publish of `id` keeps release `n`: it is `id` itself, or the release that is current. */
  predicate Spares(d: Disk, id: PlanId, n: PlanId) {
    var current := Repository.CurrentRelease(d);
    n == id || (if current.Some? && current.value != id then current.value == n
                else Repository.Previous in d.links && d.links[Repository.Previous] == n)
  }

  /** The run will commit and prune. */
  predicate Fresh(d: Disk, id: PlanId) {
    !Repository.Committed(d, id) && Repository.PublishScript(d, id).ok
  }

  /** A failure may be answered: the newest released plan is still served, and where the run commits and prunes, it is
      the current release or the plan itself. */
  ghost predicate Recoverable(w: World) {
    var newest := NewestReleased(w.server.publications);
    newest.Some? ==>
      var n := Sha256Of(newest.value);
      && CrashSafety.Served(w.disk, n)
      && (Waiting(w.server).Some? && Fresh(w.disk, Waiting(w.server).value) ==>
          Spares(w.disk, Waiting(w.server).value, n))
  }

  ghost predicate Admissible(book: Book, w: World, e: Event) {
    match e
    case Collecting => InTime(w.server)
    case Writing(plan, files) => !AnyPending(w.server.publications) && Brings(book, w.server, plan, files)
    case SignerTurn(turn) => turn.answer == Signer.Failure ==> Recoverable(w)
    case _ => true
  }

  // ---------------------------------------------------------------- order, whatever names and answers mean

  lemma BoardInOrder(s: Server, board: Board)
    ensures InOrder(s.(board := board)) == InOrder(s)
  {
  }

  lemma CollectInOrder(s: Server)
    requires InOrder(s)
    ensures InOrder(Collect(s)) && (!InTime(s) ==> !AnyPending(Collect(s).publications))
  {
    hide Settle, CollectRows, NewestReleased;
    LastPending(s.publications);
    CollectLast(s);
    if AnyPending(s.publications) {
      var n := |s.publications| - 1;
      var id := Sha256Of(s.publications[n].plan);
      if id in s.outbox {
        SettledFacts(s, if s.outbox[id].published then Released else Declined, s.outbox[id].at);
      } else if s.publications[n].createdAt + SIGNER_TIMEOUT_SECONDS < s.board.now {
        SettledFacts(s, Declined, s.board.now);
      }
      forall p <- s.publications | p.state == Pending ensures p == s.publications[n] {
        var i :| 0 <= i < |s.publications| && s.publications[i] == p;
      }
    } else {
      CollectNothing(s);
    }
  }

  lemma WriteInOrder(s: Server, plan: PublishPlan, files: map<string, PackageFile>)
    requires InOrder(s) && !AnyPending(s.publications)
    ensures InOrder(Written(s, plan, files)) && Waiting(Written(s, plan, files)) == Some(Sha256Of(plan))
  {
    var e := Written(s, plan, files);
    forall i | 0 <= i < |e.publications| - 1 ensures e.publications[i].state != Pending {
      assert s.publications[i] in s.publications;
    }
    LastPending(e.publications);
  }

  lemma AnswerInOrder(s: Server, t: Signer.Turn, at: nat)
    requires InOrder(s) && Waiting(s) == Some(t.id)
    ensures InOrder(s.(outbox := Answered(s.outbox, t, at)))
  {
    LastPending(s.publications);
  }

  lemma InboxWaits(s: Server, id: PlanId)
    requires InOrder(s) && id in s.inbox && id !in s.outbox
    ensures Waiting(s) == Some(id)
  {
    LastPending(s.publications);
  }

  /** The order is kept by everything that happens, in time or not, whatever is handed over and answered; the server
      only must not write while a plan is pending. */
  lemma EventKeepsOrder(w: World, e: Event)
    requires Coupled(w) && InOrder(w.server) && (e.Writing? ==> !AnyPending(w.server.publications))
    ensures Coupled(After(w, e)) && InOrder(After(w, e).server)
  {
    hide InOrder, Collect, Written, Answered, Waiting, Signer.Allowed, Repository.Run, Repository.RollbackScript,
        Signer.TurnSteps;
    match e
    case Collecting => CollectInOrder(w.server);
    case Writing(plan, files) => WriteInOrder(w.server, plan, files);
    case SignerTurn(turn) =>
      Convergence.KeyringAndInboxStay(w.disk, Signer.TurnSteps(w.disk, turn));
      if Waiting(w.server) == Some(turn.id) { AnswerInOrder(w.server, turn, w.server.board.now); }
    case RollbackRun(cut) =>
      var steps := Repository.RollbackScript(w.disk).steps;
      Convergence.KeyringAndInboxStay(w.disk, if cut <= |steps| then steps[..cut] else steps);
    case Otherwise(board) => BoardInOrder(w.server, board);
  }

  // ---------------------------------------------------------------- the invariant over every run

  lemma ServedElsewhere(d: Disk, e: Disk, id: PlanId)
    requires CrashSafety.Served(d, id) && e.keyring == d.keyring && e.hot == d.hot && e.signatures == d.signatures
        && e.releases == d.releases
    ensures CrashSafety.Served(e, id)
  {
  }

  lemma InboxIsFree(book: Book, d: Disk, inbox: map<PlanId, InboxDirectory>)
    requires CrashSafety.Inv(d, book)
    ensures CrashSafety.Inv(d.(inbox := inbox), book)
  {
    var e := d.(inbox := inbox);
    forall link <- e.links ensures CrashSafety.Served(e, e.links[link]) { ServedElsewhere(d, e, d.links[link]); }
    forall id <- e.releases ensures CrashSafety.Genuine(e, id) { assert CrashSafety.Genuine(d, id); }
  }

  lemma ExchangeInvOf(book: Book, w: World)
    requires ExchangeInv(book, w)
    ensures Coupled(w) && CrashSafety.Inv(w.disk, book)
  {
    hide CrashSafety.Inv, CrashSafety.NamesFixed, CrashSafety.Served, NewestReleased, Handed, CrashSafety.PlanByBook;
  }

  lemma NewerPending(publications: seq<Publication>, p: Publication)
    ensures p.state != Released ==> NewestReleased(publications + [p]) == NewestReleased(publications)
    ensures p.state == Released ==> NewestReleased(publications + [p]) == Some(p.plan)
  {
    assert (publications + [p])[..|publications|] == publications;
  }

  lemma {:induction false} NothingToCollect(s: Server, n: nat)
    requires n <= |s.publications| && forall i :: 0 <= i < n ==> s.publications[i].state != Pending
    ensures CollectRows(s, n) == s
  {
    if n > 0 { NothingToCollect(s, n - 1); }
  }

  /** With at most the newest publication pending, collecting looks at that one only. */
  lemma CollectLast(s: Server)
    requires forall i :: 0 <= i < |s.publications| - 1 ==> s.publications[i].state != Pending
    ensures Collect(s) == if |s.publications| == 0 then s else CollectRow(s, |s.publications| - 1)
  {
    if |s.publications| > 0 { NothingToCollect(s, |s.publications| - 1); }
  }

  lemma LastPending(publications: seq<Publication>)
    requires forall i :: 0 <= i < |publications| - 1 ==> publications[i].state != Pending
    ensures AnyPending(publications) <==> |publications| > 0 && publications[|publications| - 1].state == Pending
  {
    if AnyPending(publications) {
      var p :| p in publications && p.state == Pending;
      var i :| 0 <= i < |publications| && publications[i] == p;
    }
  }

  /** A settled row: nothing is pending, nothing is left in the exchange directories. */
  lemma SettledFacts(s: Server, state: PublicationState, at: nat)
    requires |s.publications| > 0 && state != Pending
    requires forall i :: 0 <= i < |s.publications| - 1 ==> s.publications[i].state != Pending
    requires var last := s.publications[|s.publications| - 1];
             last.state == Pending && (forall i :: i in s.inbox ==> i == Sha256Of(last.plan))
                 && (forall i :: i in s.outbox ==> i == Sha256Of(last.plan))
    ensures var last, e := s.publications[|s.publications| - 1], Settle(s, |s.publications| - 1, state, at);
            && !AnyPending(e.publications) && e.inbox == map[] && e.outbox == map[] && e.board == s.board
            && |e.publications| == |s.publications|
                && e.publications[|e.publications| - 1] == last.(state := state, finishedAt := at)
            && (forall i :: 0 <= i < |s.publications| - 1 ==> e.publications[i] == s.publications[i])
            && NewestReleased(e.publications) == if state == Released then Some(last.plan)
                else NewestReleased(s.publications)
  {
    var n := |s.publications| - 1;
    var last, e := s.publications[n], Settle(s, n, state, at);
    assert e.publications == s.publications[..n] + [last.(state := state, finishedAt := at)];
    assert s.publications == s.publications[..n] + [last];
    NewerPending(s.publications[..n], last);
    NewerPending(s.publications[..n], last.(state := state, finishedAt := at));
    LastPending(e.publications);
  }

  lemma CollectKeeps(book: Book, w: World)
    requires ExchangeInv(book, w) && InTime(w.server)
    ensures ExchangeInv(book, With(w, Collect(w.server)))
  {
    hide Settle, CollectRows, NewestReleased, CrashSafety.Served, CrashSafety.NamesFixed, CrashSafety.PlanByBook,
        CrashSafety.Inv, Handed;
    var s := w.server;
    LastPending(s.publications);
    CollectLast(s);
    var e := With(w, Collect(s));
    InboxIsFree(book, w.disk, e.server.inbox);
    if AnyPending(s.publications) {
      var n := |s.publications| - 1;
      var last := s.publications[n];
      var id := Sha256Of(last.plan);
      assert last in s.publications;
      if id in s.outbox {
        var published, at := s.outbox[id].published, s.outbox[id].at;
        SettledFacts(s, if published then Released else Declined, at);
        var newest := NewestReleased(e.server.publications);
        if newest.Some? { ServedElsewhere(w.disk, e.disk, Sha256Of(newest.value)); }
        forall p <- e.server.publications ensures CrashSafety.PlanByBook(book, p.plan) {
          var i :| 0 <= i <= n && e.server.publications[i] == p;
          assert s.publications[i] in s.publications;
        }
      } else {
        assert e.server == s && e.disk == w.disk;
      }
    } else {
      CollectNothing(s);
      assert e.server == s && e.disk == w.disk;
    }
  }

  lemma CollectNothing(s: Server)
    requires !AnyPending(s.publications)
    ensures Collect(s) == s
  {
    NothingToCollect(s, |s.publications|);
  }

  lemma WriteKeeps(book: Book, w: World, plan: PublishPlan, files: map<string, PackageFile>)
    requires ExchangeInv(book, w) && !AnyPending(w.server.publications) && Brings(book, w.server, plan, files)
    ensures ExchangeInv(book, With(w, Written(w.server, plan, files)))
  {
    hide NewestReleased, CrashSafety.Served, CrashSafety.PlanByBook, CrashSafety.Inv;
    var s := w.server;
    var e := With(w, Written(s, plan, files));
    var id := Sha256Of(plan);
    InboxIsFree(book, w.disk, e.server.inbox);
    NewerPending(s.publications, Publication(plan, Pending, s.board.now, 0));
    LastPending(e.server.publications);
    var newest := NewestReleased(s.publications);
    if newest.Some? { ServedElsewhere(w.disk, e.disk, Sha256Of(newest.value)); }
    forall i | 0 <= i < |s.publications| ensures e.server.publications[i].state != Pending {
      assert s.publications[i] in s.publications;
    }
    assert CrashSafety.NamesFixed(book, e.disk, id);
    assert Handed(book, e.server, plan);
  }

  /** What a cut or complete signer run leaves served: the plan it works on, or everything that was served before. */
  lemma RunServes(book: Book, d: Disk, id: PlanId, order: Repository.ScanOrder, k: nat)
    requires CrashSafety.Inv(d, book) && CrashSafety.NamesFixed(book, d, id)
        && k <= |Repository.PublishSteps(d, id, order)|
    ensures var e, ok := Repository.Run(d, Repository.PublishSteps(d, id, order)[..k]),
        Repository.PublishScript(d, id).ok;
            && CrashSafety.Inv(e, book) && e.inbox == d.inbox
            && ((CrashSafety.Served(e, id) && Repository.ValidPlan(id.plan))
                || forall n :: CrashSafety.Served(d, n) ==> CrashSafety.Served(e, n))
            && (!ok ==> forall n :: CrashSafety.Served(d, n) ==> CrashSafety.Served(e, n))
            && (CrashSafety.Served(d, id) && Repository.ReadablePlan(d, id) ==> ok)
            && (CrashSafety.Served(d, id) ==> CrashSafety.Served(e, id))
  {
    hide Repository.Apply, Repository.Run, Repository.PublishSteps, Repository.PrepareScript, CrashSafety.Inv,
        CrashSafety.NamesFixed, CrashSafety.Served;
    var steps := Repository.PublishSteps(d, id, order);
    var e := Repository.Run(d, steps[..k]);
    Convergence.KeyringAndInboxStay(d, steps[..k]);
    ServedIsCommitted(book, d, id);
    if Repository.PublishScript(d, id).ok {
      var j := Convergence.CutPublish(book, d, id, order, k);
      if Convergence.Switching(d, e, id, j) {
        CrashSafety.ActivatableIsServed(book, e, id);
      } else {
        ExtendsServesAll(book, d, e);
      }
    } else {
      FailedRunExtends(book, d, id, order, k);
      ExtendsServesAll(book, d, e);
    }
  }

  lemma ServedIsCommitted(book: Book, d: Disk, id: PlanId)
    requires CrashSafety.Inv(d, book)
    ensures CrashSafety.Served(d, id) ==> Repository.Committed(d, id) && Repository.Activatable(d, id)
  {
    CrashSafety.ActivatableIsServed(book, d, id);
  }

  lemma ExtendsServesAll(book: Book, d: Disk, e: Disk)
    requires CrashSafety.Inv(d, book) && CrashSafety.Inv(e, book) && CrashSafety.Extends(d, e)
    ensures forall n :: CrashSafety.Served(d, n) ==> CrashSafety.Served(e, n)
  {
    forall n | CrashSafety.Served(d, n) ensures CrashSafety.Served(e, n) { CrashSafety.ExtendsServes(book, d, e, n); }
  }

  /** A run that ends in an error only staged files, or moved packages into place. */
  lemma FailedRunExtends(book: Book, d: Disk, id: PlanId, order: Repository.ScanOrder, k: nat)
    requires CrashSafety.Inv(d, book) && CrashSafety.NamesFixed(book, d, id)
        && k <= |Repository.PublishSteps(d, id, order)|
    requires !Repository.PublishScript(d, id).ok
    ensures var e := Repository.Run(d, Repository.PublishSteps(d, id, order)[..k]);
        CrashSafety.Inv(e, book) && CrashSafety.Extends(d, e)
  {
    hide Repository.Apply, Repository.Run, CrashSafety.Inv, CrashSafety.NamesFixed;
    var steps := Repository.PublishSteps(d, id, order);
    assert steps == Repository.PublishScript(d, id).steps;
    if !Repository.ReadablePlan(d, id) || Repository.Committed(d, id) {
      assert steps == [];
    } else {
      CommittedThenOk(book, d, id);
      assert steps == Repository.PrepareScript(d, id).steps;
      KeyringOfInv(book, d);
      CrashSafety.PreparePrepares(book, d, id);
    }
    CrashSafety.PreparingRunKeeps(book, d, id, steps[..k]);
  }

  lemma KeyringOfInv(book: Book, d: Disk)
    requires CrashSafety.Inv(d, book)
    ensures CrashSafety.KeyringByBook(book, d.keyring)
  {
  }

  /** Once the commit is reached, nothing can fail any more. */
  lemma CommittedThenOk(book: Book, d: Disk, id: PlanId)
    requires CrashSafety.Inv(d, book) && CrashSafety.NamesFixed(book, d, id) && Repository.ReadablePlan(d, id)
        && !Repository.Committed(d, id)
    ensures Repository.PrepareScript(d, id).ok && Repository.Vacant(d, id) ==> Repository.PublishScript(d, id).ok
  {
    hide Repository.Apply, Repository.Run, Repository.PrepareScript, CrashSafety.Inv, CrashSafety.NamesFixed;
    if Repository.PrepareScript(d, id).ok && Repository.Vacant(d, id) {
      CrashSafety.CommitActivates(book, d, id);
    }
  }

  // ---------------------------------------------------------------- what a turn spares

  /** Up to the pruning, a publish loses no release. */
  lemma ScriptServes(book: Book, d: Disk, id: PlanId, k: nat, n: PlanId)
    requires CrashSafety.Inv(d, book) && CrashSafety.NamesFixed(book, d, id) && Repository.PublishScript(d, id).ok
    requires k <= |Repository.PublishScript(d, id).steps| && CrashSafety.Served(d, n)
    ensures CrashSafety.Served(Repository.Run(d, Repository.PublishScript(d, id).steps[..k]), n)
  {
    hide Repository.Apply, Repository.Run, Repository.PrepareScript, CrashSafety.Inv, CrashSafety.NamesFixed,
        CrashSafety.Served, Repository.Activatable;
    if Repository.Committed(d, id) {
      LinksServe(book, d, id, k, n);
    } else {
      CrashSafety.PublishShape(d, id);
      var prepare := Repository.PrepareScript(d, id).steps;
      var committed := prepare + [Repository.Commit(id)];
      var mid := Repository.Run(d, committed);
      CrashSafety.PreparePrepares(book, d, id) by { KeyringOfInv(book, d); }
      CrashSafety.CommitActivates(book, d, id);
      CrashSafety.CutRun(d, committed, Repository.ActivateScript(mid, id).steps, k);
      CommitSpares(book, d, id, n, prepare, mid, k);
      if k > |committed| { LinksServe(book, mid, id, k - |committed|, n); }
    }
  }

  lemma LinksServe(book: Book, d: Disk, id: PlanId, k: nat, n: PlanId)
    requires CrashSafety.Inv(d, book) && CrashSafety.Served(d, n) && k <= |Repository.ActivateScript(d, id).steps|
    ensures CrashSafety.Served(Repository.Run(d, Repository.ActivateScript(d, id).steps[..k]), n)
  {
    hide Repository.Apply, Repository.Run, CrashSafety.Inv, CrashSafety.Served, Repository.Activatable;
    if Repository.Activatable(d, id) {
      CrashSafety.TargetsServed(book, d, id);
      var j := CrashSafety.LinksCut(d, Repository.Targets(d, id), k);
      CrashSafety.ServedSame(d, Repository.Run(d, Repository.ActivateScript(d, id).steps[..k]), n);
    } else {
      Signer.RunEmpty(d);
    }
  }

  lemma CommitSpares(book: Book, d: Disk, id: PlanId, n: PlanId, prepare: seq<Repository.Step>, mid: Disk, k: nat)
    requires CrashSafety.Inv(d, book) && CrashSafety.Served(d, n)
    requires forall s <- prepare :: CrashSafety.Preparing(book, id, s)
    requires mid == Repository.Run(d, prepare + [Repository.Commit(id)]) && CrashSafety.Inv(mid, book)
    requires CrashSafety.Served(mid, id)
    ensures CrashSafety.Served(mid, n)
    ensures k <= |prepare + [Repository.Commit(id)]| ==>
              CrashSafety.Served(Repository.Run(d, (prepare + [Repository.Commit(id)])[..k]), n)
  {
    hide Repository.Apply, CrashSafety.Inv, CrashSafety.Served;
    var committed := prepare + [Repository.Commit(id)];
    CrashSafety.PreparingRunKeeps(book, d, id, prepare);
    var e := Repository.Run(d, prepare);
    CrashSafety.ExtendsServes(book, d, e, n) by { BooksOf(book, d, e); }
    assert committed[..|prepare|] == prepare;
    CommitKeepsOthers(e, id, n);
    assert mid == Repository.Apply(e, Repository.Commit(id));
    if k <= |prepare| {
      assert committed[..k] == prepare[..k];
      CrashSafety.PreparingRunKeeps(book, d, id, prepare[..k]);
      var f := Repository.Run(d, prepare[..k]);
      BooksOf(book, d, f);
      CrashSafety.ExtendsServes(book, d, f, n);
    } else if k == |committed| {
      assert committed[..k] == committed;
    }
  }

  lemma BooksOf(book: Book, d: Disk, e: Disk)
    requires CrashSafety.Inv(d, book) && CrashSafety.Inv(e, book)
    ensures CrashSafety.ByBook(book, d.hot) && CrashSafety.ByBook(book, e.hot) && CrashSafety.ByBook(book, e.signatures)
  {
  }

  lemma CommitKeepsOthers(e: Disk, id: PlanId, n: PlanId)
    requires CrashSafety.Served(e, n)
    ensures n != id ==> CrashSafety.Served(Repository.Apply(e, Repository.Commit(id)), n)
  {
  }

  /** A release that is spared stays served at every cut of the run. */
  lemma RunSpares(book: Book, d: Disk, id: PlanId, order: Repository.ScanOrder, k: nat, n: PlanId)
    requires CrashSafety.Inv(d, book) && CrashSafety.NamesFixed(book, d, id)
        && k <= |Repository.PublishSteps(d, id, order)|
    requires CrashSafety.Served(d, n) && (Fresh(d, id) ==> Spares(d, id, n))
    ensures CrashSafety.Served(Repository.Run(d, Repository.PublishSteps(d, id, order)[..k]), n)
  {
    hide Repository.Apply, Repository.Run, Repository.PublishScript, Repository.PruneScript, CrashSafety.Inv,
        CrashSafety.NamesFixed, CrashSafety.Served, Spares;
    var script := Repository.PublishScript(d, id);
    var steps := Repository.PublishSteps(d, id, order);
    if !script.ok {
      RunServes(book, d, id, order, k);
    } else {
      var prune := steps[|script.steps|..];
      assert steps == script.steps + prune;
      CrashSafety.CutRun(d, script.steps, prune, k);
      if k <= |script.steps| {
        ScriptServes(book, d, id, k, n);
      } else {
        CrashSafety.PublishEnds(book, d, id);
        var mid := Repository.Run(d, script.steps);
        assert script.steps[..|script.steps|] == script.steps;
        ScriptServes(book, d, id, |script.steps|, n);
        PruneSpares(d, mid, id, order, k - |script.steps|, n);
      }
    }
  }

  lemma PruneSpares(d: Disk, mid: Disk, id: PlanId, order: Repository.ScanOrder, k: nat, n: PlanId)
    requires CrashSafety.Published(d, mid, id) && CrashSafety.Served(mid, n) && Spares(d, id, n)
    requires k <= |Repository.PruneScript(mid, order).steps|
    ensures CrashSafety.Served(Repository.Run(mid, Repository.PruneScript(mid, order).steps[..k]), n)
  {
    hide Repository.Apply, Repository.Run, Repository.PruneScript, CrashSafety.Discarding, CrashSafety.Served;
    CrashSafety.PruneDiscards(mid, order);
    var steps := Repository.PruneScript(mid, order).steps[..k];
    CrashSafety.DiscardingRunThins(mid, steps);
    assert n in Repository.KeptReleases(mid) by { KeptAfterSwitch(d, mid, id, n); }
    CrashSafety.ThinningKeepsServed(mid, Repository.Run(mid, steps), n);
  }

  /** After the links are switched, exactly the spared releases are kept. */
  lemma KeptAfterSwitch(d: Disk, mid: Disk, id: PlanId, n: PlanId)
    requires mid.links == CrashSafety.Switched(d, id)
    ensures n in Repository.KeptReleases(mid) <==> Spares(d, id, n)
  {
    assert Repository.Current in mid.links && mid.links[Repository.Current] == id;
    KeptAre(mid, n);
  }

  lemma KeptAre(d: Disk, n: PlanId)
    ensures n in Repository.KeptReleases(d) <==>
              || (Repository.Current in d.links && d.links[Repository.Current] == n)
              || (Repository.Previous in d.links && d.links[Repository.Previous] == n)
  {
    if Repository.Current in d.links { assert d.links[Repository.Current] in Repository.KeptReleases(d); }
    if Repository.Previous in d.links { assert d.links[Repository.Previous] in Repository.KeptReleases(d); }
  }

  /** A fresh run to its end removes every release that is not spared, and every package only such releases have. */
  lemma RunRemoves(book: Book, d: Disk, id: PlanId, order: Repository.ScanOrder, n: PlanId)
    requires CrashSafety.Inv(d, book) && CrashSafety.NamesFixed(book, d, id) && Fresh(d, id) && !Spares(d, id, n)
    requires Repository.Lists(Repository.Run(d, Repository.PublishScript(d, id).steps), order)
    ensures var mid := Repository.Run(d, Repository.PublishScript(d, id).steps);
            var e := Repository.Run(d, Repository.PublishSteps(d, id, order));
            n !in e.releases && e.releases.Keys == Repository.KeptReleases(mid)
                && e.hot.Keys == Repository.KeptFiles(mid)
            && e.links == mid.links
  {
    hide Repository.Apply, Repository.Run, Repository.PublishScript, Repository.PruneScript, CrashSafety.Inv,
        CrashSafety.NamesFixed, CrashSafety.Served, Repository.Lists, Spares, Repository.KeptFiles;
    var script := Repository.PublishScript(d, id).steps;
    var mid := Repository.Run(d, script);
    CrashSafety.PublishEnds(book, d, id);
    CrashSafety.RunAppend(d, script, Repository.PruneScript(mid, order).steps);
    KeptAfterSwitch(d, mid, id, n);
    KeptAfterSwitch(d, mid, id, id);
    assert Spares(d, id, id) by { SparesItself(d, id); }
    Convergence.PruneHoldsKept(book, mid, order);
  }

  lemma SparesItself(d: Disk, id: PlanId)
    ensures Spares(d, id, id)
  {
  }

  lemma SignerKeeps(book: Book, w: World, t: Signer.Turn)
    requires ExchangeInv(book, w) && (t.answer == Signer.Failure ==> Recoverable(w))
    ensures ExchangeInv(book, Signed(w, t))
  {
    hide NewestReleased, CrashSafety.Served, CrashSafety.PlanByBook, CrashSafety.Inv, CrashSafety.NamesFixed,
        Repository.PublishSteps, Repository.PublishScript, Repository.Run, Handed, Fresh, Spares;
    var s := w.server;
    LastPending(s.publications);
    if Waiting(s) == Some(t.id) && Signer.Allowed(w.disk, t) {
      var id := t.id;
      var steps := Repository.PublishSteps(w.disk, id, t.order);
      var k := if t.cut <= |steps| then t.cut else |steps|;
      assert steps[..|steps|] == steps;
      assert Signer.TurnSteps(w.disk, t) == steps[..k];
      RunServes(book, w.disk, id, t.order, k);
      var e := Signed(w, t);
      Signer.NamesFixedAgain(book, w.disk, e.disk, id);
      HandedReadable(book, s, id.plan, w.disk);
      StillHanded(book, s, e.server, id.plan);
      if t.answer == Signer.Success { Signer.SuccessServes(book, w.disk, t); }
      var newest := NewestReleased(s.publications);
      if t.answer == Signer.Failure && newest.Some? {
        RunSpares(book, w.disk, id, t.order, k, Sha256Of(newest.value));
      }
      assert PendingOk(book, e);
    }
  }

  lemma HandedReadable(book: Book, s: Server, plan: PublishPlan, d: Disk)
    requires Handed(book, s, plan) && d.inbox == s.inbox
    ensures Repository.ReadablePlan(d, Sha256Of(plan)) <==> Repository.ValidPlan(plan)
  {
  }

  lemma StillHanded(book: Book, s: Server, e: Server, plan: PublishPlan)
    requires Handed(book, s, plan) && e.inbox == s.inbox && e.publications == s.publications
    ensures Handed(book, e, plan)
  {
  }

  lemma RollbackKeeps(book: Book, w: World, cut: nat)
    requires ExchangeInv(book, w)
    ensures ExchangeInv(book, w.(disk := RolledBack(w.disk, cut)))
  {
    hide NewestReleased, CrashSafety.Served, CrashSafety.PlanByBook, CrashSafety.Inv, CrashSafety.NamesFixed, Handed,
        Repository.Run, Repository.RollbackScript;
    var e := w.(disk := RolledBack(w.disk, cut));
    RolledBackFacts(book, w.disk, cut);
    var s := w.server;
    if AnyPending(s.publications) {
      var id := Sha256Of(s.publications[|s.publications| - 1].plan);
      Signer.NamesFixedAgain(book, w.disk, e.disk, id);
      assert PendingOk(book, e);
    }
  }

  /** Rolling back, whole or cut, touches links only. */
  lemma RolledBackFacts(book: Book, d: Disk, cut: nat)
    requires CrashSafety.Inv(d, book)
    ensures var e := RolledBack(d, cut);
            && CrashSafety.Inv(e, book) && e.inbox == d.inbox
            && forall n :: CrashSafety.Served(d, n) ==> CrashSafety.Served(e, n)
  {
    hide CrashSafety.Served, CrashSafety.Inv, Repository.Run, Repository.Apply, Repository.Activatable;
    var steps := Repository.RollbackScript(d).steps;
    var k := if cut <= |steps| then cut else |steps|;
    assert steps[..|steps|] == steps;
    var e := RolledBack(d, cut);
    if steps == [] {
      Signer.RunEmpty(d);
      assert e == d;
    } else {
      var id := d.links[Repository.Previous];
      CrashSafety.ActivateIsSafe(book, d, id, k);
      CrashSafety.TargetsServed(book, d, id);
      var j := CrashSafety.LinksCut(d, Repository.Targets(d, id), k);
      forall n | CrashSafety.Served(d, n) ensures CrashSafety.Served(e, n) { CrashSafety.ServedSame(d, e, n); }
    }
  }

  /** Whatever happens - results, new plans, crashed or complete signer runs, lost answers, rollbacks, and any change of
      the builds - keeps at most one publication pending, and the newest released plan served unless its successor
      is. */
  lemma EventKeeps(book: Book, w: World, e: Event)
    requires ExchangeInv(book, w) && Admissible(book, w, e)
    ensures ExchangeInv(book, After(w, e))
  {
    hide ExchangeInv, Collect, Written, Signed, RolledBack, Brings, Recoverable;
    match e
    case Collecting => CollectKeeps(book, w);
    case Writing(plan, files) => WriteKeeps(book, w, plan, files);
    case SignerTurn(turn) => SignerKeeps(book, w, turn);
    case RollbackRun(cut) => RollbackKeeps(book, w, cut);
    case Otherwise(board) => BoardIsFree(book, w, board);
  }

  lemma BoardIsFree(book: Book, w: World, board: Board)
    requires ExchangeInv(book, w)
    ensures ExchangeInv(book, w.(server := w.server.(board := board)))
  {
    hide NewestReleased, CrashSafety.Served, CrashSafety.PlanByBook, CrashSafety.Inv, CrashSafety.NamesFixed, Handed;
    var e := w.(server := w.server.(board := board));
    if AnyPending(w.server.publications) {
      StillHanded(book, w.server, e.server, w.server.publications[|w.server.publications| - 1].plan);
      assert PendingOk(book, e);
    }
  }

  function History(w: World, events: seq<Event>): World {
    if |events| == 0 then w else After(History(w, events[..|events| - 1]), events[|events| - 1])
  }

  lemma {:induction false} HistoryKeeps(book: Book, w: World, events: seq<Event>)
    requires ExchangeInv(book, w)
    requires forall i :: 0 <= i < |events| ==> Admissible(book, History(w, events[..i]), events[i])
    ensures ExchangeInv(book, History(w, events))
  {
    hide ExchangeInv, After, Admissible;
    if |events| > 0 {
      var before := events[..|events| - 1];
      forall i | 0 <= i < |before| ensures Admissible(book, History(w, before[..i]), before[i]) {
        assert before[..i] == events[..i];
      }
      HistoryKeeps(book, w, before);
      EventKeeps(book, History(w, before), events[|events| - 1]);
    }
  }

  // ---------------------------------------------------------------- answering a failure

  /** Exactly when the signer may answer a failure at any point of its turn: the newest released plan is still served,
      and a run that is to commit and prune starts with it as the current release, or is for that very plan. */
  lemma FailureKeepsExactly(book: Book, w: World, order: Repository.ScanOrder)
    requires ExchangeInv(book, w) && Waiting(w.server).Some?
    requires var id := Waiting(w.server).value;
             Fresh(w.disk, id) ==> Repository.Lists(Repository.Run(w.disk, Repository.PublishScript(w.disk, id).steps),
                 order)
    ensures Recoverable(w) <==>
              forall cut: nat ::
                  ExchangeInv(book, Signed(w, Signer.Turn(Waiting(w.server).value, order, cut, Signer.Failure)))
  {
    hide ExchangeInv, Signed, Recoverable;
    if Recoverable(w) {
      forall cut: nat
          ensures ExchangeInv(book, Signed(w, Signer.Turn(Waiting(w.server).value, order, cut, Signer.Failure))) {
        SignerKeeps(book, w, Signer.Turn(Waiting(w.server).value, order, cut, Signer.Failure));
      }
    } else {
      var cut := FailureBreaks(book, w, order);
    }
  }

  lemma FailureBreaks(book: Book, w: World, order: Repository.ScanOrder) returns (cut: nat)
    requires ExchangeInv(book, w) && Waiting(w.server).Some? && !Recoverable(w)
    requires var id := Waiting(w.server).value;
             Fresh(w.disk, id) ==> Repository.Lists(Repository.Run(w.disk, Repository.PublishScript(w.disk, id).steps),
                 order)
    ensures !ExchangeInv(book, Signed(w, Signer.Turn(Waiting(w.server).value, order, cut, Signer.Failure)))
  {
    hide CrashSafety.Served, CrashSafety.PlanByBook, CrashSafety.Inv, CrashSafety.NamesFixed, Repository.PublishSteps,
        Repository.PublishScript, Repository.Run, Repository.Lists, Handed, Fresh, Spares, NewestReleased;
    var id := Waiting(w.server).value;
    LastPending(w.server.publications);
    var n := Sha256Of(NewestReleased(w.server.publications).value);
    var steps := Repository.PublishSteps(w.disk, id, order);
    if CrashSafety.Served(w.disk, n) {
      cut := |steps|;
      assert steps[..|steps|] == steps;
      RunRemoves(book, w.disk, id, order, n);
      var e := Signed(w, Signer.Turn(id, order, cut, Signer.Failure));
      assert !CrashSafety.Served(e.disk, n) by { UnservedWithout(e.disk, n); }
      FailedAnswerNeeds(book, e, id);
    } else {
      cut := 0;
      assert steps[..0] == [];
      Signer.RunEmpty(w.disk);
      FailedAnswerNeeds(book, Signed(w, Signer.Turn(id, order, cut, Signer.Failure)), id);
    }
  }

  lemma UnservedWithout(d: Disk, n: PlanId)
    ensures n !in d.releases ==> !CrashSafety.Served(d, n)
  {
  }

  lemma FailedAnswerNeeds(book: Book, e: World, id: PlanId)
    requires |e.server.publications| > 0 && id == Sha256Of(e.server.publications[|e.server.publications| - 1].plan)
    requires e.server.publications[|e.server.publications| - 1].state == Pending
    requires id in e.server.outbox && e.server.outbox[id].Done? && !e.server.outbox[id].published
    ensures ExchangeInv(book, e) ==> PlanServed(e.disk, NewestReleased(e.server.publications))
  {
    hide CrashSafety.Served, CrashSafety.PlanByBook, CrashSafety.Inv, CrashSafety.NamesFixed, Handed, NewestReleased;
    assert e.server.publications[|e.server.publications| - 1] in e.server.publications;
  }

  /** A world in which every failure may be answered, now and later in the same plan's turns. */
  ghost predicate Calm(w: World) {
    var newest := NewestReleased(w.server.publications);
    newest.Some? ==>
      var n := Sha256Of(newest.value);
      && CrashSafety.Served(w.disk, n)
      && (Waiting(w.server).Some? ==>
            Repository.Committed(w.disk, Waiting(w.server).value) || Spares(w.disk, Waiting(w.server).value, n))
  }

  /** Plans are written while the newest released plan is the current release, or is what they ask for, and the operator
      does not roll back under a plan that waits to be committed. */
  ghost predicate Careful(book: Book, w: World, e: Event) {
    match e
    case Collecting => InTime(w.server)
    case Writing(plan, files) =>
      && !AnyPending(w.server.publications) && Brings(book, w.server, plan, files)
      && (var newest := NewestReleased(w.server.publications);
          newest.Some? ==> Spares(w.disk, Sha256Of(plan), Sha256Of(newest.value)))
    case RollbackRun(_) => Waiting(w.server).Some? ==> Repository.Committed(w.disk, Waiting(w.server).value)
    case _ => true
  }

  /** With that care no failure does harm, at whatever call it strikes and however often: no condition on answers is
      left. */
  lemma CarefulKeeps(book: Book, w: World, e: Event)
    requires ExchangeInv(book, w) && Calm(w) && Careful(book, w, e)
    ensures ExchangeInv(book, After(w, e)) && Calm(After(w, e))
  {
    hide ExchangeInv, Collect, Written, Signed, RolledBack, Brings, Calm;
    assert Recoverable(w) by { CalmIsRecoverable(w); }
    match e
    case Collecting => EventKeeps(book, w, e); CollectCalms(book, w);
    case Writing(plan, files) => EventKeeps(book, w, e); WriteCalms(book, w, plan, files);
    case SignerTurn(turn) => EventKeeps(book, w, e); TurnCalms(book, w, turn);
    case RollbackRun(cut) => EventKeeps(book, w, e); RollbackCalms(book, w, cut);
    case Otherwise(board) => EventKeeps(book, w, e); BoardCalms(w, board);
  }

  lemma CalmIsRecoverable(w: World)
    requires Calm(w)
    ensures Recoverable(w)
  {
    hide CrashSafety.Served, Repository.PublishScript, Spares, NewestReleased;
  }

  lemma CollectCalms(book: Book, w: World)
    requires ExchangeInv(book, w) && Calm(w) && InTime(w.server)
    ensures Calm(With(w, Collect(w.server)))
  {
    hide Settle, CollectRows, NewestReleased, CrashSafety.Served, CrashSafety.NamesFixed, CrashSafety.PlanByBook,
        CrashSafety.Inv, Handed, Spares;
    var s := w.server;
    var e := With(w, Collect(s));
    LastPending(s.publications);
    CollectLast(s);
    if AnyPending(s.publications) {
      var n := |s.publications| - 1;
      var last := s.publications[n];
      var id := Sha256Of(last.plan);
      assert last in s.publications;
      if id in s.outbox {
        var published, at := s.outbox[id].published, s.outbox[id].at;
        SettledFacts(s, if published then Released else Declined, at);
        var newest := NewestReleased(e.server.publications);
        if newest.Some? { ServedElsewhere(w.disk, e.disk, Sha256Of(newest.value)); }
        assert Waiting(e.server).None?;
      } else {
        assert e == w;
      }
    } else {
      CollectNothing(s);
      assert e == w;
    }
  }

  lemma WriteCalms(book: Book, w: World, plan: PublishPlan, files: map<string, PackageFile>)
    requires ExchangeInv(book, w) && Calm(w) && Careful(book, w, Writing(plan, files))
    ensures Calm(With(w, Written(w.server, plan, files)))
  {
    hide NewestReleased, CrashSafety.Served, CrashSafety.NamesFixed, CrashSafety.PlanByBook, CrashSafety.Inv, Handed;
    var s := w.server;
    var e := With(w, Written(s, plan, files));
    NewerPending(s.publications, Publication(plan, Pending, s.board.now, 0));
    var newest := NewestReleased(s.publications);
    if newest.Some? { ServedElsewhere(w.disk, e.disk, Sha256Of(newest.value)); }
  }

  lemma TurnCalms(book: Book, w: World, t: Signer.Turn)
    requires ExchangeInv(book, w) && Calm(w)
    ensures Calm(Signed(w, t))
  {
    hide NewestReleased, CrashSafety.Served, CrashSafety.PlanByBook, CrashSafety.Inv, CrashSafety.NamesFixed,
        Repository.PublishSteps, Repository.PublishScript, Repository.Run, Handed, Fresh, Spares, Repository.Committed;
    var s := w.server;
    LastPending(s.publications);
    var newest := NewestReleased(s.publications);
    if Waiting(s) == Some(t.id) && Signer.Allowed(w.disk, t) && newest.Some? {
      var id, n := t.id, Sha256Of(newest.value);
      var steps := Repository.PublishSteps(w.disk, id, t.order);
      var k := if t.cut <= |steps| then t.cut else |steps|;
      assert steps[..|steps|] == steps;
      var e := Signed(w, t);
      assert e.disk == Repository.Run(w.disk, steps[..k]);
      assert Fresh(w.disk, id) ==> Spares(w.disk, id, n) by { NotFreshWhenCommitted(w.disk, id); }
      RunSpares(book, w.disk, id, t.order, k, n);
      StaysSpared(book, w.disk, id, t.order, k, n);
    }
  }

  lemma NotFreshWhenCommitted(d: Disk, id: PlanId)
    ensures Repository.Committed(d, id) ==> !Fresh(d, id)
  {
  }

  /** Once committed, a plan stays committed through its own turns; before that, its turns leave the links alone. */
  lemma StaysSpared(book: Book, d: Disk, id: PlanId, order: Repository.ScanOrder, k: nat, n: PlanId)
    requires CrashSafety.Inv(d, book) && CrashSafety.NamesFixed(book, d, id)
        && k <= |Repository.PublishSteps(d, id, order)|
    requires Repository.Committed(d, id) || Spares(d, id, n)
    ensures var e := Repository.Run(d, Repository.PublishSteps(d, id, order)[..k]);
            Repository.Committed(e, id) || Spares(e, id, n)
  {
    hide Repository.Apply, Repository.Run, Repository.PublishSteps, Repository.PublishScript, CrashSafety.Inv,
        CrashSafety.NamesFixed, Spares, Repository.Committed;
    var e := Repository.Run(d, Repository.PublishSteps(d, id, order)[..k]);
    if Repository.PublishScript(d, id).ok {
      var j := Convergence.CutPublish(book, d, id, order, k);
      if !Convergence.Switching(d, e, id, j) { SameLinksSpare(d, e, id, n); }
    } else {
      FailedRunExtends(book, d, id, order, k);
      SameLinksSpare(d, e, id, n);
    }
  }

  lemma SameLinksSpare(d: Disk, e: Disk, id: PlanId, n: PlanId)
    requires e.links == d.links && e.releases == d.releases
    ensures Spares(e, id, n) == Spares(d, id, n) && Repository.Committed(e, id) == Repository.Committed(d, id)
  {
  }

  lemma RollbackCalms(book: Book, w: World, cut: nat)
    requires ExchangeInv(book, w) && Calm(w)
    requires Waiting(w.server).Some? ==> Repository.Committed(w.disk, Waiting(w.server).value)
    ensures Calm(w.(disk := RolledBack(w.disk, cut)))
  {
    hide NewestReleased, CrashSafety.Served, CrashSafety.Inv, Spares, Handed, CrashSafety.NamesFixed,
        CrashSafety.PlanByBook;
    RolledBackFacts(book, w.disk, cut);
    RolledBackLinks(book, w.disk, cut);
  }

  lemma RolledBackLinks(book: Book, d: Disk, cut: nat)
    requires CrashSafety.Inv(d, book)
    ensures CrashSafety.SameOutsideLinks(d, RolledBack(d, cut))
  {
    hide CrashSafety.Served, CrashSafety.Inv, Repository.Run, Repository.Apply, Repository.Activatable;
    var steps := Repository.RollbackScript(d).steps;
    var k := if cut <= |steps| then cut else |steps|;
    assert steps[..|steps|] == steps;
    if steps == [] {
      Signer.RunEmpty(d);
    } else {
      var id := d.links[Repository.Previous];
      CrashSafety.TargetsServed(book, d, id);
      var j := CrashSafety.LinksCut(d, Repository.Targets(d, id), k);
    }
  }

  lemma BoardCalms(w: World, board: Board)
    requires Calm(w)
    ensures Calm(w.(server := w.server.(board := board)))
  {
    hide NewestReleased, CrashSafety.Served, Spares;
  }

  // ---------------------------------------------------------------- what the signer does is such events

  /** The outbox as the signer writes it and as the server reads it. */
  ghost predicate Mirrors(outbox: map<PlanId, Outcome>, results: map<PlanId, bool>) {
    && (forall id :: id in outbox <==> id in results)
    && (forall id <- results :: outbox[id].Done? && outbox[id].published == results[id])
  }

  function TurnEvents(turns: seq<Signer.Turn>): seq<Event> {
    if |turns| == 0 then [] else TurnEvents(turns[..|turns| - 1]) + [SignerTurn(turns[|turns| - 1])]
  }

  /** Whatever a pass over the inbox does - `Signer.ProcessInbox` says that it takes turns - is a run of the signer's
      events, down to the disk and the results. */
  lemma {:induction false} InboxPassIsRun(w: World, results: map<PlanId, bool>, turns: seq<Signer.Turn>)
    requires Coupled(w) && InOrder(w.server)
    requires Mirrors(w.server.outbox, results) && Signer.TakesTurns(w.disk, results, turns)
    ensures var e := History(w, TurnEvents(turns));
            && e.disk == Signer.DiskAfter(w.disk, turns) && e.server == w.server.(outbox := e.server.outbox)
            && Mirrors(e.server.outbox, Signer.OutboxAfter(results, turns))
  {
    hide InOrder, Signer.Allowed, Signer.AfterTurn, Mirrors, Signer.TakesTurns, Signer.OutboxAfter;
    if |turns| > 0 {
      var n := |turns| - 1;
      Signer.FewerTurns(w.disk, results, turns);
      InboxPassIsRun(w, results, turns[..n]);
      var before := History(w, TurnEvents(turns[..n]));
      assert TurnEvents(turns)[..|TurnEvents(turns)| - 1] == TurnEvents(turns[..n]);
      Signer.LastTurnFacts(w.disk, results, turns);
      TurnIsEvent(w, before, Signer.OutboxAfter(results, turns[..n]), turns[n]);
      OneMoreAnswer(results, turns);
    } else {
      assert Signer.OutboxAfter(results, turns) == results by { Signer.NoTurns(w.disk, results); assert turns == []; }
    }
  }

  lemma OneMoreAnswer(results: map<PlanId, bool>, turns: seq<Signer.Turn>)
    requires |turns| > 0
    ensures Signer.OutboxAfter(results, turns) ==
              Signer.WithAnswer(Signer.OutboxAfter(results, turns[..|turns| - 1]), turns[|turns| - 1])
  {
  }

  lemma TurnIsEvent(w: World, before: World, results: map<PlanId, bool>, t: Signer.Turn)
    requires Coupled(w) && InOrder(w.server) && before.server == w.server.(outbox := before.server.outbox)
    requires Mirrors(before.server.outbox, results) && t.id in w.disk.inbox && t.id !in results
        && Signer.Allowed(before.disk, t)
    ensures var e := After(before, SignerTurn(t));
            && e.disk == Signer.AfterTurn(before.disk, t) && e.server == before.server.(outbox := e.server.outbox)
            && Mirrors(e.server.outbox, Signer.WithAnswer(results, t))
  {
    hide Signer.Allowed, Signer.AfterTurn;
    LastPending(w.server.publications);
    assert t.id in w.server.inbox;
    assert Waiting(before.server) == Some(t.id);
  }

  // ---------------------------------------------------------------- delta plans can be completed

  /** Digests name files: two planned artifacts with one digest are one file. */
  ghost predicate DigestsNameFiles(plan: PublishPlan, other: PublishPlan) {
    forall a <- plan.artifacts, b <- other.artifacts :: a.sha256 == b.sha256 ==> a.file == b.file
  }

  lemma ServedIsReusable(book: Book, d: Disk, id: PlanId, plan: PublishPlan, a: ArtifactRecord)
    requires CrashSafety.Served(d, id) && CrashSafety.PlanByBook(book, plan) && CrashSafety.ByBook(book, d.hot)
        && CrashSafety.PlanByBook(book, id.plan)
    requires a in plan.artifacts && DigestsNameFiles(plan, id.plan) && exists b ::
        b in id.plan.artifacts && b.sha256 == a.sha256
    ensures Repository.Reusable(d, a)
  {
    var b :| b in id.plan.artifacts && b.sha256 == a.sha256;
    assert b in id.plan.artifacts + [d.keyring.record];
  }

  /** Whenever nothing is pending, every artifact of the newest released plan can be reused from the hot directory. */
  lemma ReleasedIsReusable(book: Book, w: World, a: ArtifactRecord)
    requires ExchangeInv(book, w) && !AnyPending(w.server.publications)
    requires var newest := NewestReleased(w.server.publications); newest.Some? && a in newest.value.artifacts
    ensures Repository.Reusable(w.disk, a)
  {
    hide CrashSafety.PlanByBook;
    var plan := NewestReleased(w.server.publications).value;
    assert a in Sha256Of(plan).plan.artifacts + [w.disk.keyring.record];
  }

  /** The signer finds every artifact of the plan it works on, at every try: in the inbox with the planned size and
      digest, or reusable in the hot directory. */
  lemma DeltaIsComplete(book: Book, w: World, a: ArtifactRecord)
    requires ExchangeInv(book, w) && Waiting(w.server).Some? && a in Waiting(w.server).value.plan.artifacts
    requires var newest := NewestReleased(w.server.publications);
        newest.Some? ==> DigestsNameFiles(Waiting(w.server).value.plan, newest.value)
    ensures var id := Waiting(w.server).value;
            || Repository.Reusable(w.disk, a)
            || (id in w.disk.inbox && a.file in w.disk.inbox[id].files
                && Repository.Matches(w.disk.inbox[id].files[a.file], a))
  {
    hide CrashSafety.Served, CrashSafety.PlanByBook, CrashSafety.NamesFixed, NewestReleased;
    var s := w.server;
    LastPending(s.publications);
    var id := Waiting(s).value;
    var newest := NewestReleased(s.publications);
    assert s.publications[|s.publications| - 1] in s.publications;
    if CrashSafety.Served(w.disk, id) {
      ServedArtifact(w.disk, id, a);
    } else if a.sha256 in HeldDigests(s.publications) {
      ServedIsReusable(book, w.disk, Sha256Of(newest.value), id.plan, a);
    }
  }

  lemma ServedArtifact(d: Disk, id: PlanId, a: ArtifactRecord)
    requires CrashSafety.Served(d, id) && a in id.plan.artifacts
    ensures Repository.Reusable(d, a)
  {
    assert a in id.plan.artifacts + [d.keyring.record];
  }

  /** The metadata inside the planned packages is what their records say. */
  ghost predicate InfoByBook(book: Book, plan: PublishPlan) {
    forall a <- plan.artifacts ::
        book(a.file).info == Some(Repository.PackageInfo(a.packageName, a.packageVersion, a.architecture))
  }

  lemma PrepareSucceeds(book: Book, d: Disk, id: PlanId)
    requires CrashSafety.Inv(d, book) && CrashSafety.NamesFixed(book, d, id) && InfoByBook(book, id.plan)
    requires forall a <- id.plan.artifacts :: Repository.Reusable(d, a) || Repository.Delivered(d, id, a)
    ensures Repository.PrepareScript(d, id).ok
  {
    hide Repository.PrepareScript, CrashSafety.Served, CrashSafety.Safe;
    forall a <- id.plan.artifacts ensures Committing.Supplied(d, id, a) {
      assert Repository.Reusable(d, a) ==> d.hot[a.file] == book(a.file) == d.signatures[a.file];
    }
    Committing.SuppliedIsPrepared(d, id);
  }

  /** Exactly when the signer succeeds with a valid plan whose packages are what their records say: the release is
      already there in whole, or nothing is in the place where it is to be committed. What an interrupted pruning left
      of an older release of the same plan is in the way. */
  lemma PublishSucceedsExactly(book: Book, w: World)
    requires ExchangeInv(book, w) && Waiting(w.server).Some?
    requires var plan := Waiting(w.server).value.plan;
             && Repository.ValidPlan(plan) && InfoByBook(book, plan)
             && var newest := NewestReleased(w.server.publications);
                 newest.Some? ==> DigestsNameFiles(plan, newest.value)
    ensures var id := Waiting(w.server).value;
            Repository.PublishScript(w.disk, id).ok <==> CrashSafety.Served(w.disk, id) || Repository.Vacant(w.disk, id)
  {
    hide CrashSafety.Served, CrashSafety.NamesFixed, CrashSafety.Inv, NewestReleased, Repository.PrepareScript,
        Repository.Activatable;
    var s, d := w.server, w.disk;
    LastPending(s.publications);
    var id := Waiting(s).value;
    HandedReadable(book, s, id.plan, d);
    CrashSafety.ActivatableIsServed(book, d, id);
    ServedIsCommitted(book, d, id);
    if !Repository.Committed(d, id) {
      forall a <- id.plan.artifacts ensures Repository.Reusable(d, a) || Repository.Delivered(d, id, a) {
        DeltaIsComplete(book, w, a);
        if !Repository.Reusable(d, a) { InfoOfDelivered(book, w, a); }
      }
      PrepareSucceeds(book, d, id);
      CommittedThenOk(book, d, id);
    }
  }

  lemma InfoOfDelivered(book: Book, w: World, a: ArtifactRecord)
    requires Coupled(w) && Waiting(w.server).Some? && Handed(book, w.server, Waiting(w.server).value.plan)
    requires var id := Waiting(w.server).value;
             && CrashSafety.NamesFixed(book, w.disk, id) && InfoByBook(book, id.plan) && a in id.plan.artifacts
             && id in w.disk.inbox && a.file in w.disk.inbox[id].files
                 && Repository.Matches(w.disk.inbox[id].files[a.file], a)
    ensures Repository.Delivered(w.disk, Waiting(w.server).value, a)
  {
  }
}
