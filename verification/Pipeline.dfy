/** The whole installation under the one hypothesis on file names: what clients download, and what the exchange between
    server and signer keeps. */
module Pipeline {
  import opened Protocol
  import opened Store
  import opened Closure
  import opened Builds
  import opened Planning
  import opened Exchange
  import opened Installation
  import Review
  import Repository
  import CrashSafety
  import Signer
  import Reconciling
  import Publishing

  type Event = Installation.Event

  // ---------------------------------------------------------------- file names determine contents

  /** Whatever is stored for a record of the plan, and whatever is handed over for it, is what its file name stands
      for. Uploads that no plan takes up may be anything. */
  ghost predicate NamesFixPlan(t: Tools, book: Book, b: Board, artifacts: seq<ArtifactRecord>,
      sources: map<string, nat>)
  {
    forall a <- artifacts ::
      && (forall i | 0 <= i < |b.builds| && b.builds[i].state == Succeeded && a in b.builds[i].artifacts ::
            SlotOf(b, i, a.file).stored.Some? ==> t.inspect(SlotOf(b, i, a.file).stored.value) == book(a.file))
      && (a.file in sources && SlotOf(b, sources[a.file], a.file).stored.Some? ==>
            t.inspect(SlotOf(b, sources[a.file], a.file).stored.value) == book(a.file))
  }

  /** The hypothesis on a run: whenever a plan is written, file names determine contents. */
  ghost predicate Admissible(t: Tools, book: Book, f: Factory, e: Event) {
    e.ReconcileRound? ==>
      var r := Refreshed(f.desk.revisions, e.closure, e.bases, f.server);
      var plan := ToWrite(t.name, f.desk.revisions, e.closure, r);
      plan.Some? ==> NamesFixPlan(t, book, r.board, plan.value.artifacts, e.sources)
  }

  /** The signer's disk and what is handed over agree with the names. */
  ghost predicate Named(book: Book, d: Disk) {
    CrashSafety.Inv(d, book) && forall id <- d.inbox :: CrashSafety.NamesFixed(book, d, id)
  }

  lemma PlannedMatches(t: Tools, book: Book, revisions: seq<Revision>, b: Board, c: Closure, sources: map<string, nat>,
      a: ArtifactRecord)
    requires BoardInv(t.sha, revisions, b) && Reads(t.sha, t.inspect)
    requires PlannedArtifacts(revisions, b, c).Some? && a in PlannedArtifacts(revisions, b, c).value
    requires NamesFixPlan(t, book, b, PlannedArtifacts(revisions, b, c).value, sources)
    ensures Repository.Matches(book(a.file), a)
  {
    hide PlannedArtifacts, BoardInv;
    var i := PlannedIsStored(t.sha, revisions, b, c, a);
    assert t.inspect(SlotOf(b, i, a.file).stored.value) == book(a.file);
  }

  lemma SmallerInbox(book: Book, d: Disk, inbox: map<PlanId, InboxDirectory>)
    requires Named(book, d) && forall id <- inbox :: id in d.inbox && inbox[id] == d.inbox[id]
    ensures Named(book, d.(inbox := inbox))
  {
    hide CrashSafety.Inv, CrashSafety.PlanByBook;
    InboxIsFree(book, d, inbox);
    forall id <- inbox ensures CrashSafety.NamesFixed(book, d.(inbox := inbox), id) {
      assert CrashSafety.NamesFixed(book, d, id);
    }
  }

  /** What is written has the contents its names stand for. */
  lemma WriteNames(t: Tools, book: Book, f: Factory, c: Closure, plan: PublishPlan, sources: map<string, nat>)
    requires BoardInv(t.sha, f.desk.revisions, f.server.board) && Reads(t.sha, t.inspect)
    requires Named(book, f.disk) && f.disk.inbox == f.server.inbox
    requires PlannedArtifacts(f.desk.revisions, f.server.board, c) == Some(plan.artifacts)
        && Copyable(f.server.board, plan.artifacts, sources)
        && NamesFixPlan(t, book, f.server.board, plan.artifacts, sources)
    ensures Named(book, f.disk.(inbox := Write(f.server, t.inspect, plan, sources).inbox))
  {
    hide BoardInv, CrashSafety.Inv, PlannedArtifacts, HeldDigests, CrashSafety.NamesFixed, Reads;
    var id := Sha256Of(plan);
    var e := f.disk.(inbox := Write(f.server, t.inspect, plan, sources).inbox);
    InboxIsFree(book, f.disk, e.inbox);
    forall a <- plan.artifacts ensures Repository.Matches(book(a.file), a) {
      PlannedMatches(t, book, f.desk.revisions, f.server.board, c, sources, a);
    }
    forall other <- e.inbox ensures CrashSafety.NamesFixed(book, e, other) {
      if other != id { NamesFixedElsewhere(book, f.disk, e, other); }
      else { WrittenNamesFixed(t, book, f, plan, sources); }
    }
  }

  lemma NamesFixedElsewhere(book: Book, d: Disk, e: Disk, id: PlanId)
    requires CrashSafety.NamesFixed(book, d, id) && id in d.inbox && id in e.inbox && e.inbox[id] == d.inbox[id]
    ensures CrashSafety.NamesFixed(book, e, id)
  {
  }

  lemma WrittenNamesFixed(t: Tools, book: Book, f: Factory, plan: PublishPlan, sources: map<string, nat>)
    requires Copyable(f.server.board, plan.artifacts, sources)
    requires NamesFixPlan(t, book, f.server.board, plan.artifacts, sources)
    requires forall a <- plan.artifacts :: Repository.Matches(book(a.file), a)
    ensures CrashSafety.NamesFixed(book, f.disk.(inbox := Write(f.server, t.inspect, plan, sources).inbox),
        Sha256Of(plan))
  {
    hide HeldDigests;
  }

  lemma RoundNames(t: Tools, book: Book, f: Factory, c: Closure, bases: seq<string>, sources: map<string, nat>)
    requires FactoryInv(t, f) && Named(book, f.disk) && Reads(t.sha, t.inspect)
    requires Admissible(t, book, f, ReconcileRound(c, bases, sources))
    ensures Named(book, Installation.After(t, f, ReconcileRound(c, bases, sources)).disk)
  {
    hide FactoryInv, Refreshed, Write, PlannedArtifacts, NamesFixPlan, Copyable, HasActive, Named, Reads,
        Installation.After;
    RefreshKeeps(t, f, c, bases);
    RoundIs(t, f, c, bases, sources);
    var mid := RefreshedFactory(f, c, bases);
    SmallerInbox(book, f.disk, mid.disk.inbox);
    var plan := ToWrite(t.name, f.desk.revisions, c, mid.server);
    if plan.Some? && Copyable(mid.server.board, plan.value.artifacts, sources) {
      BoardOf(t, mid);
      WriteNames(t, book, mid, c, plan.value, sources);
    }
  }

  lemma TurnNames(t: Tools, book: Book, f: Factory, turn: Signer.Turn)
    requires Named(book, f.disk)
    ensures Named(book, Installation.After(t, f, SignerRun(turn)).disk)
  {
    hide CrashSafety.Inv, CrashSafety.NamesFixed, CrashSafety.Served, Repository.Run, Repository.PublishSteps,
        Repository.PublishScript;
    if turn.id in f.disk.inbox && turn.id !in f.server.outbox && Signer.Allowed(f.disk, turn) {
      var steps := Repository.PublishSteps(f.disk, turn.id, turn.order);
      var k := if turn.cut <= |steps| then turn.cut else |steps|;
      assert steps[..|steps|] == steps;
      var e := Installation.After(t, f, SignerRun(turn)).disk;
      assert e == Repository.Run(f.disk, steps[..k]);
      RunServes(book, f.disk, turn.id, turn.order, k);
      forall id <- e.inbox ensures CrashSafety.NamesFixed(book, e, id) {
        Signer.NamesFixedAgain(book, f.disk, e, id);
      }
    }
  }

  lemma RollbackNames(book: Book, d: Disk, cut: nat)
    requires Named(book, d)
    ensures Named(book, RolledBack(d, cut))
  {
    hide CrashSafety.Inv, CrashSafety.NamesFixed, RolledBack;
    var e := RolledBack(d, cut);
    RolledBackFacts(book, d, cut);
    forall id <- e.inbox ensures CrashSafety.NamesFixed(book, e, id) { Signer.NamesFixedAgain(book, d, e, id); }
  }

  lemma EventNames(t: Tools, book: Book, f: Factory, e: Event)
    requires FactoryInv(t, f) && Named(book, f.disk) && Reads(t.sha, t.inspect) && Admissible(t, book, f, e)
    ensures Named(book, Installation.After(t, f, e).disk)
  {
    hide FactoryInv, Named, Reads, Admissible, Reconcile, Review.After, Builds.After, RolledBack,
        Repository.Run, Repository.PublishSteps, Repository.PublishScript;
    match e
    case Reviewing(review) =>
    case Building(build) =>
    case ReconcileRound(c, bases, sources) => RoundNames(t, book, f, c, bases, sources);
    case SignerRun(turn) => TurnNames(t, book, f, turn);
    case RollbackRun(cut) => RollbackNames(book, f.disk, cut);
  }

  // ---------------------------------------------------------------- every run under the hypothesis

  ghost predicate NamedRun(t: Tools, book: Book, states: seq<Factory>, events: seq<Event>) {
    && IsRun(t, states, events) && |states| == |events| + 1
    && Reads(t.sha, t.inspect) && CrashSafety.KeyringByBook(book, states[0].disk.keyring)
    && forall i {:trigger events[i]} :: 0 <= i < |events| ==> Admissible(t, book, states[i], events[i])
  }

  lemma ShorterNamedRun(t: Tools, book: Book, states: seq<Factory>, events: seq<Event>)
    requires NamedRun(t, book, states, events) && |events| > 0
    ensures var n := |events| - 1;
            && NamedRun(t, book, states[..n + 1], events[..n]) && Reads(t.sha, t.inspect) && |states| == n + 2
            && Admissible(t, book, states[n], events[n]) && states[n + 1] == Installation.After(t, states[n], events[n])
            && FactoryInv(t, states[n])
  {
    hide Installation.After, Admissible, Reads, IsRun, FactoryInv;
    var n := |events| - 1;
    assert events[n] == events[n];
    ShorterRun(t, states, events);
    RunKeeps(t, states[..n + 1], events[..n]);
    forall i {:trigger events[..n][i]} | 0 <= i < n
      ensures Admissible(t, book, states[..n + 1][i], events[..n][i])
    {
      assert events[..n][i] == events[i];
    }
  }

  lemma {:induction false} RunNames(t: Tools, book: Book, states: seq<Factory>, events: seq<Event>)
    requires NamedRun(t, book, states, events)
    ensures |states| == |events| + 1 && Named(book, states[|events|].disk)
  {
    hide Installation.After, Admissible, Reads, IsRun, FactoryInv, Named;
    if |events| > 0 {
      var n := |events| - 1;
      ShorterNamedRun(t, book, states, events);
      RunNames(t, book, states[..n + 1], events[..n]);
      EventNames(t, book, states[n], events[n]);
    } else {
      FirstIsEmpty(t, states);
      EmptyIsNamed(book, states[0]);
    }
  }

  lemma FirstIsEmpty(t: Tools, states: seq<Factory>)
    requires IsRun(t, states, [])
    ensures Empty(states[0])
  {
  }

  lemma EmptyIsNamed(book: Book, f: Factory)
    requires Empty(f) && CrashSafety.KeyringByBook(book, f.disk.keyring)
    ensures Named(book, f.disk) && ExchangeInv(book, Exchanging(f)) && Calm(Exchanging(f))
  {
  }

  /** Main result about downloads: in every run in which file names determine the contents of what is planned, each
      package of a linked release is in place at all times, with the recorded digest and size under a valid
      signature. */
  lemma BytesOfEverything(t: Tools, book: Book, states: seq<Factory>, events: seq<Event>, link: Repository.LinkName,
      a: ArtifactRecord)
    requires NamedRun(t, book, states, events) && |states| == |events| + 1 && Installable(states[|events|], link, a)
    ensures var d := states[|events|].disk;
            a.file in d.hot && Repository.Matches(d.hot[a.file], a) && Repository.Verified(d, a.file)
  {
    hide NamedRun, IsRun, FactoryInv, Installable;
    RunNames(t, book, states, events);
    InstallableInPlace(book, states[|events|], link, a);
  }

  lemma InstallableInPlace(book: Book, f: Factory, link: Repository.LinkName, a: ArtifactRecord)
    requires Named(book, f.disk) && Installable(f, link, a)
    ensures a.file in f.disk.hot && Repository.Matches(f.disk.hot[a.file], a) && Repository.Verified(f.disk, a.file)
  {
    hide CrashSafety.NamesFixed;
    var id := f.disk.links[link];
    assert CrashSafety.Served(f.disk, id);
    assert a in id.plan.artifacts + [f.disk.keyring.record];
  }

  // ---------------------------------------------------------------- the exchange inside the whole system

  function Exchanging(f: Factory): World {
    World(f.server, f.disk)
  }

  lemma ExchangeParts(book: Book, w: World)
    requires ExchangeInv(book, w)
    ensures Coupled(w) && CrashSafety.Inv(w.disk, book)
    ensures forall id <- w.disk.inbox | id !in w.server.outbox :: Waiting(w.server) == Some(id)
  {
    hide CrashSafety.Inv, CrashSafety.Served, CrashSafety.NamesFixed, CrashSafety.PlanByBook, NewestReleased, Handed;
    LastPending(w.server.publications);
  }

  lemma WriteBrings(t: Tools, book: Book, f: Factory, c: Closure, plan: PublishPlan, sources: map<string, nat>)
    requires BoardInv(t.sha, f.desk.revisions, f.server.board) && Reads(t.sha, t.inspect)
    requires PlannedArtifacts(f.desk.revisions, f.server.board, c) == Some(plan.artifacts)
        && Copyable(f.server.board, plan.artifacts, sources)
        && NamesFixPlan(t, book, f.server.board, plan.artifacts, sources)
    ensures var files := Delta(f.server.board, t.inspect, plan.artifacts, sources, HeldDigests(f.server.publications));
            Brings(book, f.server, plan, files)
                && Write(f.server, t.inspect, plan, sources) == Written(f.server, plan, files)
  {
    hide BoardInv, PlannedArtifacts, HeldDigests, Reads;
    forall a <- plan.artifacts ensures Repository.Matches(book(a.file), a) {
      PlannedMatches(t, book, f.desk.revisions, f.server.board, c, sources, a);
    }
  }

  lemma RefreshKeepsExchange(t: Tools, book: Book, f: Factory, c: Closure, bases: seq<string>)
    requires FactoryInv(t, f) && ExchangeInv(book, Exchanging(f)) && InTime(f.server)
    ensures var mid := RefreshedFactory(f, c, bases);
            && FactoryInv(t, mid) && ExchangeInv(book, Exchanging(mid))
            && (Calm(Exchanging(f)) ==> Calm(Exchanging(mid)))
  {
    hide FactoryInv, ExchangeInv, Refreshed, Collect, InTime, Calm;
    var r := Refreshed(f.desk.revisions, c, bases, f.server);
    CollectKeeps(book, Exchanging(f));
    var collected := With(Exchanging(f), Collect(f.server));
    BoardIsFree(book, collected, r.board);
    RefreshedIsCollected(f.desk.revisions, c, bases, f.server);
    RefreshKeeps(t, f, c, bases);
    assert Exchanging(RefreshedFactory(f, c, bases)) == collected.(server := collected.server.(board := r.board));
    if Calm(Exchanging(f)) {
      CollectCalms(book, Exchanging(f));
      BoardCalms(collected, r.board);
    }
  }

  lemma RoundKeepsExchange(t: Tools, book: Book, f: Factory, c: Closure, bases: seq<string>,
      sources: map<string, nat>)
    requires FactoryInv(t, f) && ExchangeInv(book, Exchanging(f)) && InTime(f.server) && Reads(t.sha, t.inspect)
    requires Admissible(t, book, f, ReconcileRound(c, bases, sources))
    ensures ExchangeInv(book, Exchanging(Installation.After(t, f, ReconcileRound(c, bases, sources))))
  {
    hide FactoryInv, ExchangeInv, Refreshed, Write, PlannedArtifacts, NamesFixPlan, Copyable, HasActive, Collect,
        InTime, Delta, Brings, Settled, Calm, Installation.After;
    RefreshKeepsExchange(t, book, f, c, bases);
    RoundIs(t, f, c, bases, sources);
    var mid := RefreshedFactory(f, c, bases);
    var r := mid.server;
    var plan := ToWrite(t.name, f.desk.revisions, c, r);
    if plan.Some? && Copyable(r.board, plan.value.artifacts, sources) {
      BoardOf(t, mid);
      WriteBrings(t, book, mid, c, plan.value, sources);
      WriteKeeps(book, Exchanging(mid), plan.value,
          Delta(r.board, t.inspect, plan.value.artifacts, sources, HeldDigests(r.publications)));
    }
  }

  /** Results are collected within the hour, and a failure is only answered where it does no harm. */
  ghost predicate Timely(f: Factory, e: Event) {
    && (e.ReconcileRound? ==> InTime(f.server))
    && (e.SignerRun? && e.turn.answer == Signer.Failure ==> Recoverable(Exchanging(f)))
  }

  /** The whole system keeps the exchange in order in such steps. */
  lemma EventKeepsExchange(t: Tools, book: Book, f: Factory, e: Event)
    requires FactoryInv(t, f) && ExchangeInv(book, Exchanging(f)) && Timely(f, e)
    requires Reads(t.sha, t.inspect) && Admissible(t, book, f, e)
    ensures ExchangeInv(book, Exchanging(Installation.After(t, f, e)))
  {
    hide FactoryInv, ExchangeInv, Reads, Admissible, Refreshed, Reconcile, InTime, Review.After, Builds.After,
        RolledBack, Repository.Run, Repository.PublishSteps, Repository.PublishScript;
    match e
    case Reviewing(review) =>
    case Building(build) => BoardIsFree(book, Exchanging(f), Installation.After(t, f, e).server.board);
    case ReconcileRound(c, bases, sources) => RoundKeepsExchange(t, book, f, c, bases, sources);
    case SignerRun(turn) =>
      ExchangeParts(book, Exchanging(f));
      SignerKeeps(book, Exchanging(f), turn);
    case RollbackRun(cut) => RollbackKeeps(book, Exchanging(f), cut);
  }

  ghost predicate RunsTimely(states: seq<Factory>, events: seq<Event>)
    requires |states| == |events| + 1
  {
    forall i {:trigger events[i]} :: 0 <= i < |events| ==> Timely(states[i], events[i])
  }

  lemma NamedLengths(t: Tools, book: Book, states: seq<Factory>, events: seq<Event>)
    requires NamedRun(t, book, states, events)
    ensures IsRun(t, states, events) && |states| == |events| + 1
  {
    hide IsRun;
  }

  lemma {:induction false} RunKeepsExchange(t: Tools, book: Book, states: seq<Factory>, events: seq<Event>)
    requires NamedRun(t, book, states, events) && RunsTimely(states, events)
    ensures FactoryInv(t, states[|events|]) && ExchangeInv(book, Exchanging(states[|events|]))
  {
    hide Installation.After, Admissible, Reads, FactoryInv, ExchangeInv, Timely, Empty, IsRun;
    if |events| > 0 {
      hide NamedRun;
      var n := |events| - 1;
      ShorterNamedRun(t, book, states, events);
      NamedLengths(t, book, states, events);
      forall i | 0 <= i < n ensures Timely(states[..n + 1][i], events[..n][i]) {
        assert events[..n][i] == events[i];
      }
      RunKeepsExchange(t, book, states[..n + 1], events[..n]);
      assert Timely(states[n], events[n]);
      Installation.EventKeeps(t, states[n], events[n]);
      EventKeepsExchange(t, book, states[n], events[n]);
    } else {
      FirstIsEmpty(t, states);
      EmptyIsInOrder(t, states[0]);
      EmptyIsNamed(book, states[0]);
    }
  }

  /** In every such run of the whole system, whatever plan the signer is working on, it finds
      every artifact: handed over with the planned size and digest, or reusable in the hot directory. */
  lemma NothingIsMissing(t: Tools, book: Book, states: seq<Factory>, events: seq<Event>, id: PlanId, a: ArtifactRecord)
    requires NamedRun(t, book, states, events) && RunsTimely(states, events)
    requires var f := states[|events|];
             && id in f.disk.inbox && id !in f.server.outbox && a in id.plan.artifacts
             && var newest := NewestReleased(f.server.publications);
                 newest.Some? ==> DigestsNameFiles(id.plan, newest.value)
    ensures var f := states[|events|];
            || Repository.Reusable(f.disk, a)
            || (a.file in f.disk.inbox[id].files && Repository.Matches(f.disk.inbox[id].files[a.file], a))
  {
    hide NamedRun, IsRun, FactoryInv, ExchangeInv, DigestsNameFiles, NewestReleased, RunsTimely;
    NamedLengths(t, book, states, events);
    RunKeepsExchange(t, book, states, events);
    var f := states[|events|];
    ExchangeParts(book, Exchanging(f));
    DeltaIsComplete(book, Exchanging(f), a);
  }

  // ---------------------------------------------------------------- runs in which no failure does harm

  /** Results are collected within the hour, a round writes a plan only while the newest released plan is the signer's
      current release or what the new plan asks for, and the operator does not roll back under a plan that waits to be
      committed. Nothing is said about how the signer answers. */
  ghost predicate Careful(t: Tools, f: Factory, e: Event) {
    match e
    case ReconcileRound(c, bases, _) =>
      && InTime(f.server)
      && var r := Refreshed(f.desk.revisions, c, bases, f.server);
         var plan, newest := ToWrite(t.name, f.desk.revisions, c, r), NewestReleased(r.publications);
         plan.Some? && newest.Some? ==> Spares(f.disk, Sha256Of(plan.value), Sha256Of(newest.value))
    case RollbackRun(_) => Waiting(f.server).Some? ==> Repository.Committed(f.disk, Waiting(f.server).value)
    case _ => true
  }

  lemma RoundCalms(t: Tools, book: Book, f: Factory, c: Closure, bases: seq<string>, sources: map<string, nat>)
    requires FactoryInv(t, f) && ExchangeInv(book, Exchanging(f)) && Calm(Exchanging(f)) && Reads(t.sha, t.inspect)
    requires Admissible(t, book, f, ReconcileRound(c, bases, sources))
    requires Careful(t, f, ReconcileRound(c, bases, sources))
    ensures Calm(Exchanging(Installation.After(t, f, ReconcileRound(c, bases, sources))))
  {
    hide FactoryInv, ExchangeInv, Refreshed, Write, PlannedArtifacts, NamesFixPlan, Copyable, HasActive, Collect,
        InTime, Delta, Brings, Settled, Calm, Spares, NewestReleased, Installation.After;
    RefreshKeepsExchange(t, book, f, c, bases);
    RoundIs(t, f, c, bases, sources);
    var mid := RefreshedFactory(f, c, bases);
    var r := mid.server;
    var plan := ToWrite(t.name, f.desk.revisions, c, r);
    if plan.Some? && Copyable(r.board, plan.value.artifacts, sources) {
      BoardOf(t, mid);
      WriteBrings(t, book, mid, c, plan.value, sources);
      var newest := NewestReleased(r.publications);
      if newest.Some? { SameLinksSpare(f.disk, mid.disk, Sha256Of(plan.value), Sha256Of(newest.value)); }
      WriteCalms(book, Exchanging(mid), plan.value,
          Delta(r.board, t.inspect, plan.value.artifacts, sources, HeldDigests(r.publications)));
    }
  }

  /** With that care, every event finds a world in which any failure may be answered, and leaves one. */
  lemma CarefulEvent(t: Tools, book: Book, f: Factory, e: Event)
    requires FactoryInv(t, f) && ExchangeInv(book, Exchanging(f)) && Calm(Exchanging(f))
    requires Reads(t.sha, t.inspect) && Admissible(t, book, f, e) && Careful(t, f, e)
    ensures Timely(f, e) && Calm(Exchanging(Installation.After(t, f, e)))
  {
    hide FactoryInv, ExchangeInv, Reads, Admissible, Refreshed, Reconcile, InTime, Review.After, Builds.After,
        RolledBack, Calm, Recoverable, Spares;
    CalmIsRecoverable(Exchanging(f));
    match e
    case Reviewing(review) =>
    case Building(build) => BoardCalms(Exchanging(f), Installation.After(t, f, e).server.board);
    case ReconcileRound(c, bases, sources) => RoundCalms(t, book, f, c, bases, sources);
    case SignerRun(turn) =>
      ExchangeParts(book, Exchanging(f));
      TurnCalms(book, Exchanging(f), turn);
    case RollbackRun(cut) => RollbackCalms(book, Exchanging(f), cut);
  }

  ghost predicate RunsCarefully(t: Tools, states: seq<Factory>, events: seq<Event>)
    requires |states| == |events| + 1
  {
    forall i {:trigger events[i]} :: 0 <= i < |events| ==> Careful(t, states[i], events[i])
  }

  /** In every careful run the signer may fail at any call and as often as it will: whatever it answers was harmless,
      so `RunKeepsExchange` and `NothingIsMissing` hold of the run. */
  lemma {:induction false} CarefulRunsAreTimely(t: Tools, book: Book, states: seq<Factory>, events: seq<Event>)
    requires NamedRun(t, book, states, events) && |states| == |events| + 1 && RunsCarefully(t, states, events)
    ensures RunsTimely(states, events) && Calm(Exchanging(states[|events|]))
  {
    hide Installation.After, Admissible, Reads, FactoryInv, ExchangeInv, Timely, Empty, Careful, Calm, IsRun;
    if |events| > 0 {
      hide NamedRun;
      var n := |events| - 1;
      ShorterNamedRun(t, book, states, events);
      forall i | 0 <= i < n
        ensures Careful(t, states[..n + 1][i], events[..n][i])
      {
        assert events[..n][i] == events[i];
      }
      CarefulRunsAreTimely(t, book, states[..n + 1], events[..n]);
      RunKeepsExchange(t, book, states[..n + 1], events[..n]);
      assert Careful(t, states[n], events[n]);
      CarefulEvent(t, book, states[n], events[n]);
      forall i {:trigger events[i]} | 0 <= i < |events| ensures Timely(states[i], events[i]) {
        if i < n { assert events[..n][i] == events[i]; }
      }
    } else {
      FirstIsEmpty(t, states);
      EmptyIsNamed(book, states[0]);
    }
  }

  /** What the reconciling loop is said to converge to is what the build table holds: the desired plan has its contents
      and sources, by the same hypothesis on file names. */
  lemma DesiredIsWanted(t: Tools, book: Book, revisions: seq<Revision>, b: Board, c: Closure, bases: seq<string>,
      sources: map<string, nat>)
    requires BoardInv(t.sha, revisions, b) && Reads(t.sha, t.inspect)
    requires PlannedArtifacts(revisions, b, c).Some?
    requires NamesFixPlan(t, book, b, PlannedArtifacts(revisions, b, c).value, sources)
    requires Sourced(b, sources, PlannedArtifacts(revisions, b, c).value)
    requires forall id <- sources.Values :: exists base <- PublishedBases(revisions, b, c) ::
        Chosen(revisions, b, c)[base] == id
    ensures var plan := PublishPlan(PUBLISH_PLAN_FORMAT, t.name, PlannedArtifacts(revisions, b, c).value);
            var g := Reconciling.Setting(t.inspect, t.name, revisions, c, bases, sources, plan);
            Reconciling.Wants(g, b) && Reconciling.WantsByBook(book, g, b)
  {
    hide BoardInv, PlannedArtifacts, Reads, Sourced, PublishedBases, Chosen;
    var artifacts := PlannedArtifacts(revisions, b, c).value;
    Publishing.SourcesAreCopyable(revisions, b, c, artifacts, sources);
    forall a <- artifacts ensures Repository.Matches(book(a.file), a) {
      PlannedMatches(t, book, revisions, b, c, sources, a);
    }
  }
}
