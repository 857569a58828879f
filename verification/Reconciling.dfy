/** The reconciling loop: it waits for builds, keeps one plan in flight, and ends with the desired plan published.
    Nothing is assumed of file names, until the last two sections ask when the signer succeeds. */
module Reconciling {
  import opened Protocol
  import opened Store
  import opened Closure
  import opened Graph
  import opened Builds
  import opened Planning
  import opened Exchange
  import Repository
  import CrashSafety
  import Convergence
  import Committing
  import Signer

  // ---------------------------------------------------------------- one round against the exchange

  /** A round is a collection of results followed, perhaps, by one write. Nothing is written while a member has an
      active build or while a publication is pending. */
  lemma RoundIsCollectAndWrite(inspect: Inspect, name: string, revisions: seq<Revision>, c: Closure,
      bases: seq<string>, sources: map<string, nat>, s: Server)
    ensures var r := Refreshed(revisions, c, bases, s);
            var e := Reconcile(inspect, name, revisions, c, bases, sources, s);
            && r.publications == Collect(s).publications && r.inbox == Collect(s).inbox && r.outbox == Collect(s).outbox
            && (e == r || (exists plan, files :: e == Written(r, plan, files) && !AnyPending(r.publications)
                            && !Settled(r.publications, plan, r.board.now)
                            && forall base <- c.members :: !HasActive(revisions, r.board, c, base)))
  {
    hide Collect, Schedule, ExpireLeases, HasActive, Delta, Settled;
    var r := Refreshed(revisions, c, bases, s);
    var plan := ToWrite(name, revisions, c, r);
    if plan.Some? && Copyable(r.board, plan.value.artifacts, sources) {
      var files := Delta(r.board, inspect, plan.value.artifacts, sources, HeldDigests(r.publications));
      assert Reconcile(inspect, name, revisions, c, bases, sources, s) == Written(r, plan.value, files);
    }
  }

  // ---------------------------------------------------------------- what planning reads

  lemma {:induction false} UsableReads(b: Board, e: Board, latest: Option<nat>, base: string, seen: set<nat>, k: nat)
    requires e.builds == b.builds && e.directories == b.directories
    ensures UsableAmong(e, latest, base, seen, k) == UsableAmong(b, latest, base, seen, k)
    decreases k
  {
    hide Best;
    if k > 0 {
      BestIgnoresDirectories(b, e, latest, base, seen, |b.builds|);
      var best := Best(b, latest, base, seen, |b.builds|);
      if best.Some? {
        PresentReads(b, e, best.value);
        UsableReads(b, e, latest, base, seen + {best.value}, k - 1);
      }
    }
  }

  lemma PresentReads(b: Board, e: Board, id: nat)
    requires e.builds == b.builds && e.directories == b.directories && id < |b.builds|
    ensures Present(e, id) == Present(b, id)
  {
    assert forall file :: SlotOf(e, id, file) == SlotOf(b, id, file);
  }

  /** Planning looks at builds and directories only. */
  lemma PlanningReads(revisions: seq<Revision>, b: Board, e: Board, c: Closure)
    requires e.builds == b.builds && e.directories == b.directories
    ensures PlannedArtifacts(revisions, e, c) == PlannedArtifacts(revisions, b, c)
    ensures forall base :: HasActive(revisions, e, c, base) == HasActive(revisions, b, c, base)
  {
    hide PlannedArtifacts, UsableAmong, LatestApproved, ClosureSet;
    forall base ensures UsableBuild(revisions, e, base) == UsableBuild(revisions, b, base) {
      UsableReads(b, e, LatestApproved(revisions, base), base, {}, LOOK_AT);
    }
    assert Chosen(revisions, e, c) == Chosen(revisions, b, c);
    SamePlan(revisions, b, e, c);
    forall base ensures HasActive(revisions, e, c, base) == HasActive(revisions, b, c, base) {
      assert Ready(revisions, e, c, base) == Ready(revisions, b, c, base);
    }
  }

  // ---------------------------------------------------------------- a quiet server

  /** No build is in progress or could start, and scheduling has nothing to do. */
  ghost predicate Quiet(revisions: seq<Revision>, c: Closure, bases: seq<string>, b: Board) {
    && Scheduled(revisions, c, bases, b.builds) && Elements(bases) == c.members
    && (forall i :: 0 <= i < |b.builds| ==> !InProgress(b, i))
    && forall base <- c.members :: !HasActive(revisions, b, c, base)
  }

  lemma {:induction false} NothingExpires(b: Board, n: nat)
    requires n <= |b.builds| && forall i :: 0 <= i < |b.builds| ==> !InProgress(b, i)
    ensures ExpireLeases(b, n) == b
  {
    if n > 0 {
      NothingExpires(b, n - 1);
      assert !InProgress(b, n - 1);
    }
  }

  lemma QuietRefresh(revisions: seq<Revision>, c: Closure, bases: seq<string>, s: Server)
    requires Quiet(revisions, c, bases, s.board)
    ensures Refreshed(revisions, c, bases, s) == Collect(s).(board := s.board.(now := s.board.now + 1))
  {
    hide EnqueueAll, CancelStale, CollectRows, Scheduled, HasActive;
    CollectBoard(s, |s.publications|);
    NothingExpires(s.board, |s.board.builds|);
    forall base <- bases ensures base in c.members { assert base in Elements(bases); }
    ScheduleSettles(revisions, s.board, c, bases);
  }

  lemma {:induction false} CollectBoard(s: Server, n: nat)
    requires n <= |s.publications|
    ensures CollectRows(s, n).board == s.board
  {
    if n > 0 { CollectBoard(s, n - 1); }
  }

  lemma QuietStays(revisions: seq<Revision>, c: Closure, bases: seq<string>, b: Board, e: Board)
    requires Quiet(revisions, c, bases, b) && e.builds == b.builds && e.directories == b.directories
    ensures Quiet(revisions, c, bases, e) && PlannedArtifacts(revisions, e, c) == PlannedArtifacts(revisions, b, c)
  {
    hide PlannedArtifacts, HasActive, Scheduled;
    PlanningReads(revisions, b, e, c);
    forall i | 0 <= i < |e.builds| ensures !InProgress(e, i) { assert !InProgress(b, i); }
  }

  // ---------------------------------------------------------------- turns

  /** Everything that stays the same from turn to turn. */
  datatype Setting = Setting(
    inspect: Inspect, name: string, revisions: seq<Revision>, closure: Closure, bases: seq<string>,
    sources: map<string, nat>, plan: PublishPlan)

  ghost function Round(g: Setting, w: World): World {
    With(w, Reconcile(g.inspect, g.name, g.revisions, g.closure, g.bases, g.sources, w.server))
  }

  /** The signer's whole run at the waiting plan, if there is one, and its success. */
  function WholeRun(w: World, order: Repository.ScanOrder): World {
    if Waiting(w.server).None? then w else
    var id := Waiting(w.server).value;
    Signed(w, Signer.Turn(id, order, |Repository.PublishSteps(w.disk, id, order)|, Signer.Success))
  }

  /** A round of the server, a whole run of the signer, and a wait. */
  ghost function Turn(g: Setting, order: Repository.ScanOrder, wait: nat, w: World): World {
    var signed := WholeRun(Round(g, w), order);
    signed.(server := signed.server.(board := signed.server.board.(now := signed.server.board.now + wait)))
  }

  /** The desired plan, with a source for each of its files. */
  ghost predicate Wants(g: Setting, b: Board) {
    && PlannedArtifacts(g.revisions, b, g.closure) == Some(g.plan.artifacts)
    && g.plan == PublishPlan(PUBLISH_PLAN_FORMAT, g.name, g.plan.artifacts)
    && Copyable(b, g.plan.artifacts, g.sources)
  }

  function Last(s: Server): Publication
    requires |s.publications| > 0
  {
    s.publications[|s.publications| - 1]
  }

  ghost predicate LinkedAsCurrent(w: World, plan: PublishPlan) {
    Repository.Current in w.disk.links && w.disk.links[Repository.Current] == Sha256Of(plan)
  }

  /** No rollback undid a result: the newest plan, once released or about to be, is the current release. */
  ghost predicate NotRolledBack(w: World) {
    |w.server.publications| > 0 ==>
      var last := Last(w.server);
      && (last.state == Released ==> LinkedAsCurrent(w, last.plan))
      && (last.state == Pending && Sha256Of(last.plan) in w.server.outbox ==>
            var outcome := w.server.outbox[Sha256Of(last.plan)];
            outcome.Done? && outcome.published ==> LinkedAsCurrent(w, last.plan))
  }

  /** The waiting time after a failed plan has passed. */
  ghost predicate BackoffElapsed(s: Server) {
    |s.publications| > 0 ==>
      var last := Last(s);
      && (last.state == Declined ==> last.finishedAt + FAILED_PLAN_BACKOFF_SECONDS <= s.board.now)
      && (last.state == Pending && Sha256Of(last.plan) in s.outbox ==>
            var outcome := s.outbox[Sha256Of(last.plan)];
            outcome.Done? && !outcome.published ==> outcome.at + FAILED_PLAN_BACKOFF_SECONDS <= s.board.now)
  }

  /** No active builds, no outside events, no rollback, results in time, backoffs elapsed, and something to publish. */
  ghost predicate Steady(g: Setting, w: World) {
    && Coupled(w) && InOrder(w.server) && InTime(w.server) && Quiet(g.revisions, g.closure, g.bases, w.server.board)
    && Wants(g, w.server.board) && NotRolledBack(w) && BackoffElapsed(w.server)
    && (g.plan.artifacts != [] || w.server.publications != [])
  }

  /** The signer succeeds with the plan that waits, if one does. */
  predicate Workable(w: World) {
    Waiting(w.server).Some? ==> Repository.PublishScript(w.disk, Waiting(w.server).value).ok
  }

  /** Nothing is pending, and the newest released plan, the signer's current release, and the desired plan are one. */
  ghost predicate Converged(g: Setting, w: World) {
    && w.server.publications != [] && Last(w.server).state == Released && Last(w.server).plan == g.plan
    && LinkedAsCurrent(w, g.plan)
  }

  /** How many turns may be left. */
  ghost function Distance(g: Setting, w: World): nat {
    if Converged(g, w) then 0
    else if Waiting(w.server).Some? then 3
    else if w.server.publications != [] && Last(w.server).state == Pending && Last(w.server).plan == g.plan
            && Sha256Of(g.plan) in w.server.outbox && w.server.outbox[Sha256Of(g.plan)].Done?
                && w.server.outbox[Sha256Of(g.plan)].published then 1
    else 2
  }

  // ---------------------------------------------------------------- the steps of a turn

  ghost function Later(w: World, seconds: nat): World {
    w.(server := w.server.(board := w.server.board.(now := w.server.board.now + seconds)))
  }

  /** Time changes nothing that a steady world is about. */
  lemma LaterIsSteady(g: Setting, w: World, seconds: nat)
    requires Steady(g, w) && (Waiting(w.server).Some? ==> InTime(Later(w, seconds).server))
    ensures Steady(g, Later(w, seconds)) && Distance(g, Later(w, seconds)) == Distance(g, w)
  {
    hide Quiet, PlannedArtifacts, InOrder;
    var e := Later(w, seconds);
    QuietStays(g.revisions, g.closure, g.bases, w.server.board, e.server.board);
    BoardInOrder(w.server, e.server.board);
    WantsStays(g, w.server.board, e.server.board);
    assert InTime(e.server) by { LaterInTime(g, w, seconds); }
  }

  lemma LaterInTime(g: Setting, w: World, seconds: nat)
    requires Steady(g, w) && (Waiting(w.server).Some? ==> InTime(Later(w, seconds).server))
    ensures InTime(Later(w, seconds).server)
  {
    hide Quiet, PlannedArtifacts, Wants, NotRolledBack, BackoffElapsed;
    var s := w.server;
    LastPending(s.publications);
    if Waiting(s).None? {
      forall p <- s.publications | p.state == Pending ensures Sha256Of(p.plan) in s.outbox {
        var i :| 0 <= i < |s.publications| && s.publications[i] == p;
      }
    }
  }

  lemma WantsStays(g: Setting, b: Board, e: Board)
    requires Wants(g, b) && e.builds == b.builds && e.directories == b.directories
    ensures Wants(g, e)
  {
    hide PlannedArtifacts;
    PlanningReads(g.revisions, b, e, g.closure);
    forall a <- g.plan.artifacts ensures SlotOf(e, g.sources[a.file], a.file) == SlotOf(b, g.sources[a.file], a.file) {}
  }

  /** Collecting: a waiting plan keeps waiting; anything else leaves nothing pending and is no further away. */
  lemma CollectStep(g: Setting, w: World) returns (e: World)
    requires Steady(g, w)
    ensures e == With(w, Collect(w.server)) && Steady(g, e)
    ensures if Waiting(w.server).Some? then e == w
            else
              && !AnyPending(e.server.publications) && (Distance(g, w) <= 1 ==> Converged(g, e))
              && (Converged(g, w) ==> e == w)
  {
    hide Quiet, Wants, CollectRows, Settle, NewestReleased;
    var s := w.server;
    e := With(w, Collect(s));
    CollectInOrder(s);
    LastPending(s.publications);
    CollectLast(s);
    if AnyPending(s.publications) { PendingFacts(s); }
    if AnyPending(s.publications) && Waiting(s).None? {
      var outcome := s.outbox[Sha256Of(Last(s).plan)];
      SettledFacts(s, if outcome.published then Released else Declined, outcome.at);
      assert InTime(e.server);
    } else if AnyPending(s.publications) {
      assert Last(s) in s.publications;
      assert e == w;
    } else {
      CollectNothing(s);
      assert e == w;
    }
  }

  lemma PendingFacts(s: Server)
    requires InOrder(s) && AnyPending(s.publications)
    ensures && |s.publications| > 0 && Last(s).state == Pending && Sha256Of(Last(s).plan) in s.inbox
            && (Sha256Of(Last(s).plan) in s.outbox <==> Waiting(s).None?)
            && (Sha256Of(Last(s).plan) in s.outbox ==> s.outbox[Sha256Of(Last(s).plan)].Done?)
  {
    LastPending(s.publications);
  }

  /** Once nothing is pending, the round writes exactly when the desired plan is not what is released. */
  lemma WhatToWrite(g: Setting, w: World)
    requires Steady(g, w) && !AnyPending(w.server.publications)
    ensures ToWrite(g.name, g.revisions, g.closure, w.server) == if Converged(g, w) then None else Some(g.plan)
  {
    hide PlannedArtifacts, HasActive, Scheduled;
    var s := w.server;
    if s.publications != [] { assert Last(s) in s.publications; }
  }

  /** Writing the desired plan leaves it waiting for the signer. */
  lemma WriteStep(g: Setting, w: World) returns (e: World)
    requires Steady(g, w) && !AnyPending(w.server.publications)
    ensures e == With(w, Write(w.server, g.inspect, g.plan, g.sources)) && Steady(g, e)
        && Waiting(e.server) == Some(Sha256Of(g.plan))
  {
    hide Quiet, PlannedArtifacts, NewestReleased, Delta;
    var s := w.server;
    var files := Delta(s.board, g.inspect, g.plan.artifacts, g.sources, HeldDigests(s.publications));
    e := With(w, Write(s, g.inspect, g.plan, g.sources));
    assert e.server == Written(s, g.plan, files);
    WriteInOrder(s, g.plan, files);
    QuietStays(g.revisions, g.closure, g.bases, s.board, e.server.board);
    WantsStays(g, s.board, e.server.board);
    forall p <- e.server.publications | p.state == Pending
        ensures e.server.board.now <= p.createdAt + SIGNER_TIMEOUT_SECONDS {
      PendingThenAny(s.publications, p);
    }
    assert s.outbox == map[];
  }

  /** The signer's whole run answers the waiting plan and makes it current. */
  lemma SignStep(g: Setting, w: World, order: Repository.ScanOrder) returns (e: World)
    requires Steady(g, w) && Workable(w)
    ensures e == WholeRun(w, order) && Steady(g, e) && Waiting(e.server).None?
    ensures Waiting(w.server).None? ==> e == w
    ensures Waiting(w.server).Some? ==> Distance(g, e) <= if Waiting(w.server).value.plan == g.plan then 1 else 2
  {
    hide Quiet, Wants, NewestReleased, Repository.PublishSteps, Repository.PublishScript, Repository.Run, InOrder,
        Signer.AfterTurn;
    e := WholeRun(w, order);
    if Waiting(w.server).Some? {
      var id := Waiting(w.server).value;
      var t := Signer.Turn(id, order, |Repository.PublishSteps(w.disk, id, order)|, Signer.Success);
      WholeIsAllowed(w.disk, t);
      AnswerInOrder(w.server, t, w.server.board.now);
      Convergence.KeyringAndInboxStay(w.disk, Signer.TurnSteps(w.disk, t));
      TurnRuns(w.disk, t);
      SignedCurrent(w, t);
      forall p <- e.server.publications | p.state == Pending ensures Sha256Of(p.plan) in e.server.outbox {
        OnlyLastPending(w.server, p);
      }
    }
  }

  lemma TurnRuns(d: Disk, t: Signer.Turn)
    ensures Signer.AfterTurn(d, t) == Repository.Run(d, Signer.TurnSteps(d, t))
  {
  }

  lemma WholeIsAllowed(d: Disk, t: Signer.Turn)
    requires Repository.PublishScript(d, t.id).ok && t.cut == |Repository.PublishSteps(d, t.id, t.order)|
    ensures Signer.Allowed(d, t)
  {
    hide Repository.PublishScript;
  }

  lemma OnlyLastPending(s: Server, p: Publication)
    requires InOrder(s) && p in s.publications && p.state == Pending
    ensures p == Last(s)
  {
  }

  lemma SignedCurrent(w: World, t: Signer.Turn)
    requires Waiting(w.server) == Some(t.id) && Signer.Allowed(w.disk, t) && t.answer == Signer.Success
    ensures LinkedAsCurrent(Signed(w, t), t.id.plan)
  {
    hide Signer.Allowed, Signer.AfterTurn;
    Signer.SuccessSwitches(w.disk, t);
  }

  lemma RefreshedLater(g: Setting, w: World)
    requires Steady(g, w)
    ensures With(w, Refreshed(g.revisions, g.closure, g.bases, w.server)) == Later(With(w, Collect(w.server)), 1)
  {
    hide Quiet, Wants, CollectRows, InOrder;
    QuietRefresh(g.revisions, g.closure, g.bases, w.server);
    CollectBoard(w.server, |w.server.publications|);
  }

  lemma NothingWaits(s: Server)
    requires InOrder(s) && !AnyPending(s.publications)
    ensures Waiting(s).None? && s.outbox == map[]
  {
    WaitingIsPending(s);
  }

  lemma PendingThenAny(publications: seq<Publication>, p: Publication)
    ensures p in publications && p.state == Pending ==> AnyPending(publications)
  {
  }

  /** What a round does in a steady world, from the collected results on. */
  lemma RoundWrites(g: Setting, w: World, l: World)
    requires Steady(g, w) && Steady(g, l) && l == With(w, Refreshed(g.revisions, g.closure, g.bases, w.server))
    ensures AnyPending(l.server.publications) || Converged(g, l) ==> Round(g, w) == l
    ensures !AnyPending(l.server.publications) && !Converged(g, l) ==>
              Copyable(l.server.board, g.plan.artifacts, g.sources)
                  && Round(g, w) == With(l, Write(l.server, g.inspect, g.plan, g.sources))
  {
    hide PlannedArtifacts, Quiet, HasActive, Refreshed, Delta, InOrder, Settled;
    if !AnyPending(l.server.publications) { WhatToWrite(g, l); }
  }

  /** The round of a turn: it waits, or it has converged, or it writes the desired plan. */
  lemma RoundStep(g: Setting, w: World) returns (r: World)
    requires Steady(g, w) && InTime(Later(w, 1).server)
    ensures r == Round(g, w) && Steady(g, r) && r.server.board == w.server.board.(now := r.server.board.now)
    ensures var l := Later(With(w, Collect(w.server)), 1);
            || r == l
            || (!AnyPending(l.server.publications) && Copyable(l.server.board, g.plan.artifacts, g.sources)
                && r == With(l, Write(l.server, g.inspect, g.plan, g.sources)))
    ensures if Waiting(w.server).Some? then r == Later(w, 1)
            else if Waiting(r.server).Some? then Waiting(r.server).value.plan == g.plan && Distance(g, w) == 2
            else Converged(g, r)
    ensures Converged(g, w) ==> r == Later(w, 1) && Waiting(r.server).None?
  {
    hide Steady, Converged, Refreshed, Write, Collect, ToWrite, Copyable, Round, InOrder;
    var c := CollectStep(g, w);
    var l := Later(c, 1);
    RefreshedLater(g, w);
    SteadyParts(g, w);
    SteadyParts(g, c);
    SameBoard(w);
    if Waiting(w.server).None? { NothingWaits(c.server); }
    LaterIsSteady(g, c, 1);
    SteadyParts(g, l);
    ConvergedLater(g, c, 1);
    RoundWrites(g, w, l);
    if Waiting(w.server).Some? {
      WaitingIsPending(l.server);
      r := l;
      if Converged(g, w) { ConvergedNotWaiting(g, w); }
    } else if Converged(g, l) {
      r := l;
    } else {
      r := WriteStep(g, l);
      WrittenBoard(g, l);
    }
  }

  lemma SameBoard(w: World)
    ensures Collect(w.server).board == w.server.board
  {
    CollectBoard(w.server, |w.server.publications|);
  }

  lemma WrittenBoard(g: Setting, w: World)
    requires Copyable(w.server.board, g.plan.artifacts, g.sources)
    ensures var s := Write(w.server, g.inspect, g.plan, g.sources);
            s.board == w.server.board.(now := w.server.board.now + 1)
  {
  }

  lemma SteadyParts(g: Setting, w: World)
    requires Steady(g, w)
    ensures Coupled(w) && InOrder(w.server) && InTime(w.server)
  {
  }

  lemma ConvergedLater(g: Setting, w: World, seconds: nat)
    ensures Converged(g, Later(w, seconds)) == Converged(g, w) && Waiting(Later(w, seconds).server) == Waiting(w.server)
  {
  }

  lemma WaitingIsPending(s: Server)
    ensures Waiting(s).Some? ==> AnyPending(s.publications)
  {
    if Waiting(s).Some? { assert Last(s) in s.publications; }
  }

  lemma ConvergedNotWaiting(g: Setting, w: World)
    ensures Converged(g, w) ==> Waiting(w.server).None?
  {
  }

  /** Each turn of a steady world comes closer, and stays once converged. */
  lemma TurnDescends(g: Setting, w: World, order: Repository.ScanOrder, wait: nat)
    requires Steady(g, w) && InTime(Later(w, 1).server) && Workable(Round(g, w))
    ensures var e := Turn(g, order, wait, w);
            && Steady(g, e) && Waiting(e.server).None?
            && (Distance(g, w) > 0 ==> Distance(g, e) < Distance(g, w))
            && (Converged(g, w) ==> e == Later(w, 1 + wait))
  {
    hide Steady, Converged, Round, WholeRun, Workable, Distance;
    var r := RoundStep(g, w);
    var signed := SignStep(g, r, order);
    LaterIsSteady(g, signed, wait);
    assert Turn(g, order, wait, w) == Later(signed, wait);
    ConvergedLater(g, signed, wait);
    ConvergedLater(g, w, 1);
    DistanceFacts(g, w);
    DistanceFacts(g, signed);
  }

  lemma DistanceFacts(g: Setting, w: World)
    ensures Converged(g, w) <==> Distance(g, w) == 0
    ensures Waiting(w.server).Some? <==> Distance(g, w) == 3
  {
  }

  ghost function Turns(g: Setting, orders: seq<Repository.ScanOrder>, waits: seq<nat>, w: World): World
    requires |orders| == |waits|
  {
    if |orders| == 0 then w
    else Turn(g, orders[|orders| - 1], waits[|waits| - 1], Turns(g, orders[..|orders| - 1], waits[..|waits| - 1], w))
  }

  /** In the turn with index `i`, the signer finds what it needs. */
  ghost predicate WorkableAt(g: Setting, orders: seq<Repository.ScanOrder>, waits: seq<nat>, w: World, i: nat)
    requires i <= |orders| == |waits|
  {
    Workable(Round(g, Turns(g, orders[..i], waits[..i], w)))
  }

  /** Main result: from any steady world, whatever is pending, failed or released, after three turns the newest released
      plan and the signer's current release are the desired plan; from then on turns change nothing but the time. */
  lemma {:induction false} ReconcileConverges(g: Setting, orders: seq<Repository.ScanOrder>, waits: seq<nat>, w: World)
    requires |orders| == |waits| && Steady(g, w) && InTime(Later(w, 1).server)
    requires forall i :: 0 <= i < |orders| ==> WorkableAt(g, orders, waits, w, i)
    ensures var e := Turns(g, orders, waits, w);
            && Steady(g, e) && InTime(Later(e, 1).server)
                && (Converged(g, e) || Distance(g, e) + |orders| <= Distance(g, w))
            && (|orders| >= 3 ==> Converged(g, e))
            && (Converged(g, w) ==> exists seconds :: e == Later(w, seconds))
  {
    hide Steady, Converged, Round, Workable, Distance, Turn, InTime;
    var n := |orders|;
    DistanceFacts(g, w);
    if n == 0 {
      assert Turns(g, orders, waits, w) == Later(w, 0);
    } else {
      var fewer, shorter := orders[..n - 1], waits[..n - 1];
      forall i | 0 <= i < |fewer| ensures WorkableAt(g, fewer, shorter, w, i) {
        assert fewer[..i] == orders[..i] && shorter[..i] == waits[..i];
        assert WorkableAt(g, orders, waits, w, i);
      }
      ReconcileConverges(g, fewer, shorter, w);
      var before := Turns(g, fewer, shorter, w);
      assert WorkableAt(g, orders, waits, w, n - 1);
      TurnDescends(g, before, orders[n - 1], waits[n - 1]);
      var e := Turn(g, orders[n - 1], waits[n - 1], before);
      LaterInTime(g, e, 1);
      DistanceFacts(g, before);
      DistanceFacts(g, e);
      DistanceBound(g, w);
      ConvergedLater(g, before, 1 + waits[n - 1]);
      if Converged(g, w) {
        var seconds: nat :| before == Later(w, seconds);
        ConvergedLater(g, w, seconds);
        assert e == Later(w, seconds + 1 + waits[n - 1]);
      }
    }
  }

  lemma DistanceBound(g: Setting, w: World)
    ensures Distance(g, w) <= 3
  {
  }

  // ---------------------------------------------------------------- the signer's success, where names fix contents

  /** The sources hold what the names of their files stand for. */
  ghost predicate WantsByBook(book: Book, g: Setting, b: Board)
    requires Copyable(b, g.plan.artifacts, g.sources)
  {
    && CrashSafety.PlanByBook(book, g.plan)
    && forall a <- g.plan.artifacts :: g.inspect(SlotOf(b, g.sources[a.file], a.file).stored.value) == book(a.file)
  }

  /** The plan that waits is valid, its packages are what their records say, digests name files, and its release is
      whole already or nothing is in its place. */
  ghost predicate Findable(book: Book, w: World) {
    Waiting(w.server).Some? ==>
      var id := Waiting(w.server).value;
      var newest := NewestReleased(w.server.publications);
      && Repository.ValidPlan(id.plan) && InfoByBook(book, id.plan)
      && (newest.Some? ==> DigestsNameFiles(id.plan, newest.value))
      && (CrashSafety.Served(w.disk, id) || Repository.Vacant(w.disk, id))
  }

  lemma FindableSucceeds(book: Book, w: World)
    requires ExchangeInv(book, w) && Findable(book, w)
    ensures Workable(w)
  {
    hide ExchangeInv, CrashSafety.Served, Repository.PublishScript, NewestReleased, DigestsNameFiles, InfoByBook;
    if Waiting(w.server).Some? { PublishSucceedsExactly(book, w); }
  }

  /** A steady world in which names fix contents as well. */
  ghost predicate NamedSteady(book: Book, g: Setting, w: World) {
    Steady(g, w) && ExchangeInv(book, w) && WantsByBook(book, g, w.server.board)
  }

  lemma WantsByBookStays(book: Book, g: Setting, b: Board, e: Board)
    requires Copyable(b, g.plan.artifacts, g.sources) && WantsByBook(book, g, b)
    requires e == b.(now := e.now)
    ensures Copyable(e, g.plan.artifacts, g.sources) && WantsByBook(book, g, e)
  {
    hide CrashSafety.PlanByBook;
    forall a <- g.plan.artifacts ensures SlotOf(e, g.sources[a.file], a.file) == SlotOf(b, g.sources[a.file], a.file) {}
  }

  lemma DeltaBrings(book: Book, g: Setting, s: Server)
    requires Copyable(s.board, g.plan.artifacts, g.sources) && WantsByBook(book, g, s.board)
    ensures Brings(book, s, g.plan,
        Delta(s.board, g.inspect, g.plan.artifacts, g.sources, HeldDigests(s.publications)))
  {
    hide HeldDigests;
  }

  lemma NamedRound(book: Book, g: Setting, w: World)
    requires NamedSteady(book, g, w) && InTime(Later(w, 1).server)
    ensures NamedSteady(book, g, Round(g, w))
  {
    hide Steady, ExchangeInv, WantsByBook, Round, Collect, Write, Delta, Brings, HeldDigests, Copyable;
    SteadyParts(g, w);
    WantedCopyable(g, w);
    var r := RoundStep(g, w);
    var c := With(w, Collect(w.server));
    var l := Later(c, 1);
    SameBoard(w);
    CollectKeeps(book, w);
    BoardIsFree(book, c, l.server.board);
    WantsByBookStays(book, g, w.server.board, l.server.board);
    WantsByBookStays(book, g, w.server.board, r.server.board);
    if r != l {
      DeltaBrings(book, g, l.server);
      WriteKeeps(book, l, g.plan,
          Delta(l.server.board, g.inspect, g.plan.artifacts, g.sources, HeldDigests(l.server.publications)));
      WriteIsWritten(g, l.server);
    }
  }

  lemma WantedCopyable(g: Setting, w: World)
    requires Steady(g, w)
    ensures Copyable(w.server.board, g.plan.artifacts, g.sources)
  {
  }

  lemma WriteIsWritten(g: Setting, s: Server)
    requires Copyable(s.board, g.plan.artifacts, g.sources)
    ensures Write(s, g.inspect, g.plan, g.sources) ==
              Written(s, g.plan, Delta(s.board, g.inspect, g.plan.artifacts, g.sources, HeldDigests(s.publications)))
  {
  }

  lemma NamedWholeRun(book: Book, w: World, order: Repository.ScanOrder)
    requires ExchangeInv(book, w) && Workable(w)
    ensures ExchangeInv(book, WholeRun(w, order)) && WholeRun(w, order).server.board == w.server.board
  {
    hide ExchangeInv, Repository.PublishSteps, Repository.PublishScript, Signer.AfterTurn, Signer.Allowed;
    if Waiting(w.server).Some? {
      var id := Waiting(w.server).value;
      SignerKeeps(book, w, Signer.Turn(id, order, |Repository.PublishSteps(w.disk, id, order)|, Signer.Success));
    }
  }

  /** A turn of a world in which names fix contents: the signer succeeds, and names still fix contents. */
  lemma NamedTurn(book: Book, g: Setting, w: World, order: Repository.ScanOrder, wait: nat)
    requires NamedSteady(book, g, w) && InTime(Later(w, 1).server) && Findable(book, Round(g, w))
    ensures Workable(Round(g, w)) && NamedSteady(book, g, Turn(g, order, wait, w))
  {
    hide Steady, ExchangeInv, WantsByBook, Round, WholeRun, Workable, Findable, Copyable, Converged, Distance;
    NamedRound(book, g, w);
    var r := Round(g, w);
    FindableSucceeds(book, r);
    NamedWholeRun(book, r, order);
    var signed := WholeRun(r, order);
    BoardIsFree(book, signed, Later(signed, wait).server.board);
    WantedCopyable(g, r);
    TurnDescends(g, w, order, wait);
    WantsByBookStays(book, g, r.server.board, Turn(g, order, wait, w).server.board);
  }

  /** In the turn with index `i`, the signer finds what it needs. */
  ghost predicate FindableAt(book: Book, g: Setting, orders: seq<Repository.ScanOrder>, waits: seq<nat>, w: World,
      i: nat)
    requires i <= |orders| == |waits|
  {
    Findable(book, Round(g, Turns(g, orders[..i], waits[..i], w)))
  }

  /** The same theorem where names fix contents: the signer's success follows, and what the world converges to is
      served. */
  lemma {:induction false} NamedReconcileConverges(book: Book, g: Setting, orders: seq<Repository.ScanOrder>,
      waits: seq<nat>, w: World)
    requires |orders| == |waits| && NamedSteady(book, g, w) && InTime(Later(w, 1).server)
    requires forall i :: 0 <= i < |orders| ==> FindableAt(book, g, orders, waits, w, i)
    ensures var e := Turns(g, orders, waits, w);
            && (forall i :: 0 <= i < |orders| ==> WorkableAt(g, orders, waits, w, i))
            && NamedSteady(book, g, e) && InTime(Later(e, 1).server)
            && (Converged(g, e) ==> CrashSafety.Served(e.disk, Sha256Of(g.plan)))
            && (|orders| >= 3 ==> Converged(g, e))
  {
    hide NamedSteady, Converged, Round, Workable, Findable, Turn, InTime, CrashSafety.Served;
    var n := |orders|;
    if n > 0 {
      var fewer, shorter := orders[..n - 1], waits[..n - 1];
      forall i | 0 <= i < |fewer| ensures FindableAt(book, g, fewer, shorter, w, i) {
        assert fewer[..i] == orders[..i] && shorter[..i] == waits[..i];
        assert FindableAt(book, g, orders, waits, w, i);
      }
      NamedReconcileConverges(book, g, fewer, shorter, w);
      assert FindableAt(book, g, orders, waits, w, n - 1);
      NamedTurn(book, g, Turns(g, fewer, shorter, w), orders[n - 1], waits[n - 1]);
      forall i | 0 <= i < n ensures WorkableAt(g, orders, waits, w, i) {
        if i < n - 1 {
          assert fewer[..i] == orders[..i] && shorter[..i] == waits[..i];
          assert WorkableAt(g, fewer, shorter, w, i);
        }
      }
    }
    NamedIsSteady(book, g, w);
    ReconcileConverges(g, orders, waits, w);
    ConvergedIsServed(book, g, Turns(g, orders, waits, w));
  }

  lemma NamedIsSteady(book: Book, g: Setting, w: World)
    requires NamedSteady(book, g, w)
    ensures Steady(g, w)
  {
  }

  lemma ConvergedIsServed(book: Book, g: Setting, w: World)
    requires NamedSteady(book, g, w)
    ensures Converged(g, w) ==> CrashSafety.Served(w.disk, Sha256Of(g.plan))
  {
    hide Quiet, Wants, WantsByBook, CrashSafety.Served, CrashSafety.PlanByBook, CrashSafety.Inv, CrashSafety.NamesFixed,
        Handed;
    LastPending(w.server.publications);
  }

  // ---------------------------------------------------------------- the signer's success without names

  /** A package file is what its record says. */
  ghost predicate Honest(content: PackageFile, a: ArtifactRecord) {
    && Repository.Matches(content, a)
    && content.info == Some(Repository.PackageInfo(a.packageName, a.packageVersion, a.architecture))
  }

  /** Where two plans have one digest, they have one file of one size. */
  ghost predicate DigestsNameRecords(plan: PublishPlan, other: PublishPlan) {
    forall a <- plan.artifacts, b <- other.artifacts :: a.sha256 == b.sha256 ==> a.file == b.file && a.size == b.size
  }

  /** What is published can be built upon: the newest released plan is served, and what the desired plan can reuse is
      what its records say, under valid signatures. Other packages may be published under names of the plan, with other
      bytes: a rebuild replaces them. */
  ghost predicate Replaceable(g: Setting, w: World) {
    var d, id := w.disk, Sha256Of(g.plan);
    var newest := NewestReleased(w.server.publications);
    && Repository.ValidPlan(g.plan) && (CrashSafety.Served(d, id) || Repository.Vacant(d, id))
    && CrashSafety.KeyringSound(d.keyring) && Committing.KeyringApart(d, id)
    && (Repository.KeyringFound(d) ==> Repository.Verified(d, d.keyring.record.file))
    && (newest.Some? ==> CrashSafety.Served(d, Sha256Of(newest.value)) && DigestsNameRecords(g.plan, newest.value))
    && (forall a <- g.plan.artifacts | Repository.Reusable(d, a) ::
          Repository.Verified(d, a.file) && Honest(d.hot[a.file], a))
  }

  /** The sources hold what the records say. */
  ghost predicate HonestSources(g: Setting, b: Board)
    requires Copyable(b, g.plan.artifacts, g.sources)
  {
    forall a <- g.plan.artifacts :: Honest(g.inspect(SlotOf(b, g.sources[a.file], a.file).stored.value), a)
  }

  /** What is handed over completes what can be reused. */
  lemma HandedOver(g: Setting, s: Server, d: Disk, a: ArtifactRecord)
    requires Copyable(s.board, g.plan.artifacts, g.sources) && HonestSources(g, s.board)
    requires a in g.plan.artifacts && Replaceable(g, World(s, d))
    ensures var e := d.(inbox := Write(s, g.inspect, g.plan, g.sources).inbox);
            Committing.Supplied(e, Sha256Of(g.plan), a)
  {
    hide Repository.KeyringFound, NewestReleased;
    var id := Sha256Of(g.plan);
    var e := d.(inbox := Write(s, g.inspect, g.plan, g.sources).inbox);
    assert Repository.Reusable(e, a) == Repository.Reusable(d, a);
    if a.sha256 in HeldDigests(s.publications) { HeldIsReusable(g, s, d, a); }
    if !Repository.Reusable(d, a) {
      DeltaHas(g, s, a);
      assert e.inbox[id].files[a.file] == g.inspect(SlotOf(s.board, g.sources[a.file], a.file).stored.value);
    }
  }

  lemma HeldIsReusable(g: Setting, s: Server, d: Disk, a: ArtifactRecord)
    requires a in g.plan.artifacts && Replaceable(g, World(s, d)) && a.sha256 in HeldDigests(s.publications)
    ensures Repository.Reusable(d, a)
  {
    hide Repository.KeyringFound, NewestReleased;
    var newest := NewestReleased(s.publications).value;
    var b :| b in newest.artifacts && b.sha256 == a.sha256;
    assert b in Sha256Of(newest).plan.artifacts + [d.keyring.record];
  }

  lemma DeltaHas(g: Setting, s: Server, a: ArtifactRecord)
    requires Copyable(s.board, g.plan.artifacts, g.sources) && a in g.plan.artifacts
    requires a.sha256 !in HeldDigests(s.publications)
    ensures var files := Delta(s.board, g.inspect, g.plan.artifacts, g.sources, HeldDigests(s.publications));
            a.file in files && files[a.file] == g.inspect(SlotOf(s.board, g.sources[a.file], a.file).stored.value)
  {
    hide HeldDigests;
  }

  /** The signer succeeds with a plan that is handed over on such ground, and leaves its release served. */
  lemma WrittenIsWorkable(g: Setting, w: World)
    requires Copyable(w.server.board, g.plan.artifacts, g.sources) && HonestSources(g, w.server.board)
    requires Replaceable(g, w)
    ensures var e := With(w, Write(w.server, g.inspect, g.plan, g.sources));
            var id := Sha256Of(g.plan);
            && Repository.PublishScript(e.disk, id).ok
            && (Repository.Committed(e.disk, id) ==> CrashSafety.Served(e.disk, id))
            && Committing.KeyringApart(e.disk, id) && CrashSafety.KeyringSound(e.disk.keyring)
  {
    hide Delta, HeldDigests, NewestReleased, CrashSafety.Served, HonestSources, Repository.PrepareScript,
        Repository.Activatable, Committing.Supplied, Honest, Repository.ActivateScript;
    var id := Sha256Of(g.plan);
    var e := With(w, Write(w.server, g.inspect, g.plan, g.sources));
    assert Repository.ReadablePlan(e.disk, id);
    if CrashSafety.Served(w.disk, id) {
      ServedElsewhere(w.disk, e.disk, id);
      CrashSafety.ServedIsActivatable(e.disk, id);
      MayActivate(e.disk, id);
    } else {
      forall a <- g.plan.artifacts ensures Committing.Supplied(e.disk, id, a) { HandedOver(g, w.server, w.disk, a); }
      Committing.SuppliedIsPrepared(e.disk, id);
      Committing.FreshSucceedsExactly(e.disk, id);
    }
  }

  lemma MayActivate(d: Disk, id: PlanId)
    requires Repository.Activatable(d, id) && Repository.ReadablePlan(d, id) && Repository.Committed(d, id)
    ensures Repository.PublishScript(d, id).ok
  {
  }

  /** The first turn publishes the desired plan, and its release is served. */
  lemma FirstTurn(g: Setting, w: World, order: Repository.ScanOrder, wait: nat)
    requires Steady(g, w) && InTime(Later(w, 1).server) && !AnyPending(w.server.publications) && !Converged(g, w)
    requires Replaceable(g, w) && HonestSources(g, w.server.board)
    ensures Workable(Round(g, w))
    ensures var e := Turn(g, order, wait, w); Distance(g, e) <= 1 && CrashSafety.Served(e.disk, Sha256Of(g.plan))
  {
    hide Steady, Converged, Round, Refreshed, Write, Collect, Copyable, HonestSources, Replaceable, CrashSafety.Served,
        WholeRun, InOrder, Distance, Repository.PublishScript, Repository.PublishSteps, Signer.AfterTurn;
    SteadyParts(g, w);
    WantedCopyable(g, w);
    CollectNothing(w.server);
    NothingWaits(w.server);
    var r := RoundStep(g, w);
    var l := Later(w, 1);
    assert With(w, Collect(w.server)) == w;
    ConvergedLater(g, w, 1);
    ConvergedLater(g, l, 0);
    assert r == With(l, Write(l.server, g.inspect, g.plan, g.sources)) by { NotConvergedWrites(g, w, l, r); }
    LaterGround(g, w, 1);
    WrittenIsWorkable(g, l);
    BoardInOrder(w.server, l.server.board);
    WrittenWaits(g, l);
    var signed := SignStep(g, r, order);
    WholeServes(g, r, order);
    SteadyParts(g, signed);
    DistanceLater(g, signed, wait);
    ServedElsewhere(signed.disk, Turn(g, order, wait, w).disk, Sha256Of(g.plan));
  }

  lemma NotConvergedWrites(g: Setting, w: World, l: World, r: World)
    requires !AnyPending(l.server.publications) && Waiting(w.server).None? && !Converged(g, l)
    requires Waiting(r.server).None? ==> Converged(g, r)
    requires Copyable(l.server.board, g.plan.artifacts, g.sources)
    requires r == l || r == With(l, Write(l.server, g.inspect, g.plan, g.sources))
    ensures r == With(l, Write(l.server, g.inspect, g.plan, g.sources))
  {
    hide Converged, Write, Copyable;
    if r == l { WaitingIsPending(l.server); }
  }

  lemma LaterGround(g: Setting, w: World, seconds: nat)
    requires Copyable(w.server.board, g.plan.artifacts, g.sources)
    requires Replaceable(g, w) && HonestSources(g, w.server.board)
    ensures var l := Later(w, seconds);
            && Copyable(l.server.board, g.plan.artifacts, g.sources)
            && Replaceable(g, l) && HonestSources(g, l.server.board)
  {
    hide CrashSafety.Served, Honest, NewestReleased, Repository.KeyringFound;
    var l := Later(w, seconds);
    forall a <- g.plan.artifacts
      ensures SlotOf(l.server.board, g.sources[a.file], a.file) == SlotOf(w.server.board, g.sources[a.file], a.file) {}
  }

  lemma WrittenWaits(g: Setting, w: World)
    requires Coupled(w) && InOrder(w.server) && !AnyPending(w.server.publications)
    requires Copyable(w.server.board, g.plan.artifacts, g.sources)
    ensures Waiting(Write(w.server, g.inspect, g.plan, g.sources)) == Some(Sha256Of(g.plan))
  {
    hide Delta, InOrder, HeldDigests;
    WriteIsWritten(g, w.server);
    WriteInOrder(w.server, g.plan,
        Delta(w.server.board, g.inspect, g.plan.artifacts, g.sources, HeldDigests(w.server.publications)));
  }

  lemma WholeServes(g: Setting, w: World, order: Repository.ScanOrder)
    requires var id := Sha256Of(g.plan);
             && Waiting(w.server) == Some(id) && Repository.PublishScript(w.disk, id).ok
             && (Repository.Committed(w.disk, id) ==> CrashSafety.Served(w.disk, id))
             && Committing.KeyringApart(w.disk, id) && CrashSafety.KeyringSound(w.disk.keyring)
    ensures CrashSafety.Served(WholeRun(w, order).disk, Sha256Of(g.plan))
  {
    hide Repository.PublishScript, Repository.PublishSteps, CrashSafety.Served, Signer.AfterTurn;
    var id := Sha256Of(g.plan);
    var t := Signer.Turn(id, order, |Repository.PublishSteps(w.disk, id, order)|, Signer.Success);
    WholeIsAllowed(w.disk, t);
    Committing.SuccessServes(w.disk, t);
  }

  lemma DistanceLater(g: Setting, w: World, seconds: nat)
    ensures Distance(g, Later(w, seconds)) == Distance(g, w)
  {
  }

  /** A turn that finds the desired plan published, or about to be, needs nothing of the signer and leaves its release
      served. */
  lemma IdleTurn(g: Setting, w: World, order: Repository.ScanOrder, wait: nat)
    requires Steady(g, w) && InTime(Later(w, 1).server) && Distance(g, w) <= 1
    requires CrashSafety.Served(w.disk, Sha256Of(g.plan))
    ensures Workable(Round(g, w)) && Distance(g, Turn(g, order, wait, w)) == 0
    ensures CrashSafety.Served(Turn(g, order, wait, w).disk, Sha256Of(g.plan))
  {
    hide Steady, Converged, Round, Distance, CrashSafety.Served, Write, Collect;
    DistanceFacts(g, w);
    var r := RoundStep(g, w);
    DistanceFacts(g, r);
    TurnDescends(g, w, order, wait);
    ConvergedLater(g, w, 1 + wait);
    DistanceFacts(g, Turn(g, order, wait, w));
    ServedElsewhere(w.disk, Turn(g, order, wait, w).disk, Sha256Of(g.plan));
  }

  /** Main result about rebuilds: with nothing pending and the newest released plan served, the desired plan is
      published, current and served after two turns, for good - also when its packages are rebuilds that replace
      published files of the same names. Nothing is assumed of the signer but the ground it stands on. */
  lemma {:induction false} RebuildConverges(g: Setting, orders: seq<Repository.ScanOrder>, waits: seq<nat>, w: World)
    requires |orders| == |waits| > 0 && Steady(g, w) && InTime(Later(w, 1).server)
    requires !AnyPending(w.server.publications) && !Converged(g, w)
    requires Replaceable(g, w) && HonestSources(g, w.server.board)
    ensures var e := Turns(g, orders, waits, w);
            && Steady(g, e) && InTime(Later(e, 1).server) && Distance(g, e) <= 1
            && CrashSafety.Served(e.disk, Sha256Of(g.plan))
            && (|orders| >= 2 ==> Converged(g, e))
  {
    hide Steady, Converged, Round, Workable, Distance, Turn, InTime, CrashSafety.Served, Replaceable, HonestSources;
    var n := |orders|;
    var before := Turns(g, orders[..n - 1], waits[..n - 1], w);
    if n == 1 {
      FirstTurn(g, w, orders[0], waits[0]);
    } else {
      RebuildConverges(g, orders[..n - 1], waits[..n - 1], w);
      IdleTurn(g, before, orders[n - 1], waits[n - 1]);
    }
    TurnDescends(g, before, orders[n - 1], waits[n - 1]);
    var e := Turn(g, orders[n - 1], waits[n - 1], before);
    LaterInTime(g, e, 1);
    DistanceFacts(g, e);
  }
}
