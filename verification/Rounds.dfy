/** What a round of the reconciling loop does, said of the rows of its tables. */
module Rounds {
  import opened Protocol
  import opened Store
  import opened Graph
  import opened Closure
  import opened Upload
  import opened Builds
  import opened Planning
  import opened Exchange
  import opened Lifecycle

  // ---------------------------------------------------------------- results

  /** What collecting makes of the row of a plan: it is settled by the signer's answer, by an answer that does not
      parse, or after an hour without one. */
  ghost predicate CollectedRow(s: Server, row: Publication, after: Publication) {
    var id := Sha256Of(row.plan);
    if row.state != Pending then after == row
    else if id in s.outbox && s.outbox[id].Done? then
      && after.plan == row.plan && after.createdAt == row.createdAt && after.finishedAt == s.outbox[id].at
      && after.state == if s.outbox[id].published then Released else Declined
    else if id in s.outbox || row.createdAt + 3600 < s.board.now then
      after.plan == row.plan && after.createdAt == row.createdAt && after.state == Declined
      && after.finishedAt == s.board.now
    else after == row
  }

  /** Collecting results settles exactly the pending rows that have an answer or are an hour old, and then nothing of
      them is left in the exchange directories. */
  lemma CollectionDecides(s: Server)
    requires InOrder(s)
    ensures var e := Collect(s);
            && |e.publications| == |s.publications| && e.board == s.board
            && (forall i :: 0 <= i < |s.publications| ==> CollectedRow(s, s.publications[i], e.publications[i]))
            && (if forall p <- e.publications :: p.state != Pending then e.inbox == map[] && e.outbox == map[]
                else e == s)
  {
    hide InOrder, NewestReleased;
    CollectInOrder(s);
    OrderedRows(s);
    CollectLast(s);
    OrderedRows(Collect(s));
  }

  lemma OrderedRows(s: Server)
    requires InOrder(s)
    ensures forall i :: 0 <= i < |s.publications| - 1 ==> s.publications[i].state != Pending
    ensures (forall p <- s.publications :: p.state != Pending) ==> s.inbox == map[] && s.outbox == map[]
    ensures |s.publications| > 0 && s.publications[|s.publications| - 1].state == Pending ==>
              var id := Sha256Of(s.publications[|s.publications| - 1].plan);
              (forall i :: i in s.inbox ==> i == id) && (forall i :: i in s.outbox ==> i == id)
    ensures (exists p <- s.publications :: p.state == Pending) ==>
              |s.publications| > 0 && s.publications[|s.publications| - 1].state == Pending
  {
    LastPending(s.publications);
  }

  // ---------------------------------------------------------------- what is handed over

  /** The newest released publication is row `k`. */
  predicate NewestReleasedRow(publications: seq<Publication>, k: nat) {
    && k < |publications| && publications[k].state == Released
    && forall j :: k < j < |publications| ==> publications[j].state != Released
  }

  lemma {:induction false} NewestReleasedExactly(publications: seq<Publication>)
    ensures forall k: nat :: NewestReleasedRow(publications, k) ==>
              NewestReleased(publications) == Some(publications[k].plan)
    ensures (forall k: nat :: !NewestReleasedRow(publications, k)) <==> NewestReleased(publications).None?
  {
    if |publications| > 0 {
      var n := |publications| - 1;
      NewestReleasedExactly(publications[..n]);
      if publications[n].state == Released {
        assert NewestReleasedRow(publications, n);
      } else {
        forall k: nat ensures NewestReleasedRow(publications, k) <==> NewestReleasedRow(publications[..n], k) {}
      }
    }
  }

  /** A plan is handed over with exactly the files whose digests the newest released plan does not list, as they are
      stored; and it is recorded as pending. */
  lemma HandOverDecides(s: Server, inspect: Inspect, plan: PublishPlan, sources: map<string, nat>)
    requires Copyable(s.board, plan.artifacts, sources)
    ensures var e, id := Write(s, inspect, plan, sources), Sha256Of(plan);
            && e.publications == s.publications + [Publication(plan, Pending, s.board.now, 0)]
            && e.outbox == s.outbox && e.inbox.Keys == s.inbox.Keys + {id}
            && (forall other <- s.inbox | other != id :: e.inbox[other] == s.inbox[other])
            && e.inbox[id].plan == Some(plan)
            && (forall file :: file in e.inbox[id].files <==> exists a <- plan.artifacts ::
                  a.file == file && !ListedByReleased(s.publications, a.sha256))
            && (forall file <- e.inbox[id].files :: file in sources
                  && SlotOf(s.board, sources[file], file).stored.Some?
                  && e.inbox[id].files[file] == inspect(SlotOf(s.board, sources[file], file).stored.value))
  {
    hide NewestReleased;
    forall sha256 ensures sha256 in HeldDigests(s.publications) <==> ListedByReleased(s.publications, sha256) {
      HeldIsListed(s.publications, sha256);
    }
  }

  /** The newest released plan has a file with the digest. */
  ghost predicate ListedByReleased(publications: seq<Publication>, sha256: string) {
    exists k: nat :: NewestReleasedRow(publications, k) && exists a <- publications[k].plan.artifacts ::
        a.sha256 == sha256
  }

  lemma HeldIsListed(publications: seq<Publication>, sha256: string)
    ensures sha256 in HeldDigests(publications) <==> ListedByReleased(publications, sha256)
  {
    hide NewestReleased;
    NewestReleasedExactly(publications);
  }

  // ---------------------------------------------------------------- when a plan is written

  /** A build of the package runs or uploads, or waits and may start. */
  ghost predicate Busy(revisions: seq<Revision>, b: Board, c: Closure, base: string) {
    exists i :: 0 <= i < |b.builds| && b.builds[i].base == base
      && (b.builds[i].state in {Running, Uploading} || (b.builds[i].state == Queued && MayStart(revisions, b, c, base)))
  }

  lemma ActiveIsBusy(revisions: seq<Revision>, b: Board, c: Closure, base: string)
    ensures HasActive(revisions, b, c, base) <==> Busy(revisions, b, c, base)
  {
    hide Ready, MayStart;
    ReadyMayStart(revisions, b, c, base);
    if HasActive(revisions, b, c, base) {
      var i :| 0 <= i < |b.builds| && b.builds[i].base == base
                && (InProgress(b, i) || (b.builds[i].state == Queued && Ready(revisions, b, c, base)));
    }
  }

  /** The newest publication stands in the way of the plan: it is the same plan, and released, or declined less than 900
      seconds ago. */
  predicate StandsInTheWay(publications: seq<Publication>, plan: PublishPlan, now: nat) {
    if |publications| == 0 then plan.artifacts == []
    else
      var last := publications[|publications| - 1];
      last.plan == plan && (last.state == Released || (last.state == Declined && now < last.finishedAt + 900))
  }

  /** Main result on writing: after results and schedule, the round writes the desired plan exactly when no member is
      busy, nothing is pending, and the newest publication does not stand in its way. A newest publication of another
      plan never does, whatever its state and age; and where there is none yet, only an empty plan is not written. */
  lemma RoundDecides(inspect: Inspect, name: string, revisions: seq<Revision>, c: Closure, bases: seq<string>,
      sources: map<string, nat>, s: Server)
    ensures var r := Refreshed(revisions, c, bases, s);
            var e := Reconcile(inspect, name, revisions, c, bases, sources, s);
            var artifacts := PlannedArtifacts(revisions, r.board, c);
            var free := artifacts.Some? && (forall base <- c.members :: !Busy(revisions, r.board, c, base))
                && (forall p <- r.publications :: p.state != Pending)
                && !StandsInTheWay(r.publications, PublishPlan(1, name, artifacts.value), r.board.now);
            if free && Copyable(r.board, artifacts.value, sources)
            then e == Write(r, inspect, PublishPlan(1, name, artifacts.value), sources)
            else e == r
  {
    hide Refreshed, HasActive, Busy, PlannedArtifacts, Copyable, Write;
    var r := Refreshed(revisions, c, bases, s);
    forall base <- c.members
      ensures HasActive(revisions, r.board, c, base) <==> Busy(revisions, r.board, c, base)
    {
      ActiveIsBusy(revisions, r.board, c, base);
    }
  }

  /** A newest publication of another plan never stands in the way. */
  lemma OtherPlansDoNotWait(publications: seq<Publication>, plan: PublishPlan, now: nat)
    requires |publications| > 0 && publications[|publications| - 1].plan != plan
    ensures !StandsInTheWay(publications, plan, now)
  {
  }

  /** What happens before the decision: results are collected, leases expire, and builds are scheduled. */
  lemma RefreshDecides(revisions: seq<Revision>, c: Closure, bases: seq<string>, s: Server)
    ensures var r := Refreshed(revisions, c, bases, s);
            && r == Collect(s).(board := r.board)
            && var b := ExpireLeases(Collect(s).board, |Collect(s).board.builds|);
               r.board.builds == EnqueueAll(revisions, CancelStale(revisions, c, b.builds, b.now), bases)
  {
    hide EnqueueAll, CancelStale, ExpireLeases, CollectRows;
  }
}
