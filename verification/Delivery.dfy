/** The builder's side of a job: what its directory records, what it reports, and when it may throw the directory away,
    across lost replies, restarts and whatever the server does meanwhile. */
module Delivery {
  import opened Protocol
  import opened Order
  import opened Store
  import opened Closure
  import opened Upload
  import opened Builds
  import Planning

  // ---------------------------------------------------------------- the server's view

  /** The server still waits for the report of this attempt. */
  predicate Awaits(b: Board, id: nat, attempt: nat) {
    Held(b, id) && b.builds[id].state == Running && b.builds[id].attempt == attempt
  }

  predicate Reported(state: BuildState) {
    state == Uploading || state == Succeeded || state == Failed
  }

  /** While the attempt is the same, a report that was taken is not taken back. */
  predicate ReportKept(before: Build, after: Build) {
    && before.attempt <= after.attempt
    && (Reported(before.state) && after.attempt == before.attempt ==>
        Reported(after.state) && after.artifacts == before.artifacts)
  }

  /** A build that runs afterwards ran before, the same attempt under the same lease, or this lease is new; and reports
      are kept. */
  ghost predicate RunningStays(b: Board, e: Board) {
    && b.now <= e.now && |b.builds| <= |e.builds|
    && (forall i :: 0 <= i < |b.builds| ==> ReportKept(b.builds[i], e.builds[i]))
    && forall i :: 0 <= i < |e.builds| && e.builds[i].state == Running ==>
         (i < |b.builds| && b.builds[i] == e.builds[i]) || (i, e.builds[i].attempt) !in b.leases
  }

  lemma {:induction false} ExpiryRuns(b: Board, n: nat)
    requires n <= |b.builds|
    ensures var e := ExpireLeases(b, n);
            && b.now <= e.now
            && (forall i :: 0 <= i < |e.builds| ==> ReportKept(b.builds[i], e.builds[i]))
            && (forall i :: 0 <= i < |e.builds| && e.builds[i].state == Queued ==>
                  b.builds[i].state == Queued || b.builds[i].attempt < e.builds[i].attempt)
            && forall i :: 0 <= i < |e.builds| && e.builds[i].state == Running ==> b.builds[i] == e.builds[i]
  {
    hide ClassifyErrorCode;
    if n > 0 { ExpiryRuns(b, n - 1); }
  }

  lemma LeaseRuns(sha: Digest, revisions: seq<Revision>, b: Board, c: Closure, seconds: nat)
    requires BoardInv(sha, revisions, b)
    ensures RunningStays(b, Lease(revisions, b, c, seconds))
  {
    hide BoardInv, ExpireLeases, Ready, UsableBuild;
    ExpiryRuns(b, |b.builds|);
    ExpireKeeps(sha, revisions, b, |b.builds|);
    LeasesUntouched(b, |b.builds|);
    LogsOf(sha, revisions, ExpireLeases(b, |b.builds|));
  }

  lemma LogsOf(sha: Digest, revisions: seq<Revision>, b: Board)
    requires BoardInv(sha, revisions, b)
    ensures LogsOk(b)
  {
  }

  lemma ReportRuns(revisions: seq<Revision>, b: Board, id: nat, r: Builds.Report)
    ensures RunningStays(b, TakeReport(revisions, b, id, r))
  {
    hide ValidArtifacts, ClassifyErrorCode;
  }

  lemma PutRuns(sha: Digest, b: Board, id: nat, file: string, offset: nat, body: Bytes)
    ensures RunningStays(b, UploadPut(sha, b, id, file, offset, body))
  {
  }

  lemma CompleteRuns(b: Board, id: nat)
    ensures RunningStays(b, Complete(b, id))
  {
  }

  lemma {:induction false} EnqueueRuns(revisions: seq<Revision>, builds: seq<Build>, bases: seq<string>)
    ensures var all := EnqueueAll(revisions, builds, bases);
            builds <= all && forall i :: |builds| <= i < |all| ==> all[i].state == Queued
  {
    hide LatestApproved;
    if |bases| > 0 { EnqueueRuns(revisions, builds, bases[..|bases| - 1]); }
  }

  lemma ScheduleRuns(revisions: seq<Revision>, b: Board, c: Closure, bases: seq<string>)
    ensures RunningStays(b, Schedule(revisions, b, c, bases))
  {
    hide EnqueueAll, LatestApproved;
    EnqueueRuns(revisions, CancelStale(revisions, c, b.builds, b.now), bases);
  }

  lemma RebuildRuns(revisions: seq<Revision>, b: Board, base: string)
    ensures RunningStays(b, Rebuild(revisions, b, base))
  {
    hide LatestApproved;
  }

  lemma NotAwaitedStays(b: Board, e: Board, id: nat, attempt: nat)
    requires RunningStays(b, e) && (id, attempt) in b.leases && !Awaits(b, id, attempt)
    ensures !Awaits(e, id, attempt)
  {
  }

  lemma EventStays(sha: Digest, w: Workshop, e: Builds.Event)
    requires BoardInv(sha, w.revisions, w.board)
    ensures RunningStays(w.board, Builds.After(sha, w, e).board)
  {
    hide BoardInv, Lease, TakeReport, UploadPut, Complete, ExpireLeases, Schedule, Rebuild, Sweep, RunningStays;
    match e
    case Polled(closure, seconds) => LeaseRuns(sha, w.revisions, w.board, closure, seconds);
    case Reported(i, report) => ReportRuns(w.revisions, w.board, i, report);
    case Chunk(i, file, offset, body) => PutRuns(sha, w.board, i, file, offset, body);
    case Finished(i) => CompleteRuns(w.board, i);
    case Expiry => ExpiryStays(w.board);
    case Scheduling(closure, bases) => ScheduleRuns(w.revisions, w.board, closure, bases);
    case RebuildAsked(base) => RebuildRuns(w.revisions, w.board, base);
    case Decided(_) => TimeStays(w.board, w.board.now);
    case Swept(keep) => SweepStays(w.board, keep);
    case Elapsed(now) => TimeStays(w.board, if now >= w.board.now then now else w.board.now);
  }

  /** Once the server no longer waits for a leased attempt's report, it never will again. */
  lemma NeverAwaitedAgain(sha: Digest, w: Workshop, e: Builds.Event, id: nat, attempt: nat)
    requires BoardInv(sha, w.revisions, w.board) && (id, attempt) in w.board.leases && !Awaits(w.board, id, attempt)
    ensures !Awaits(Builds.After(sha, w, e).board, id, attempt)
  {
    hide BoardInv, Builds.After, RunningStays, Awaits;
    EventStays(sha, w, e);
    NotAwaitedStays(w.board, Builds.After(sha, w, e).board, id, attempt);
  }

  lemma ExpiryStays(b: Board)
    ensures RunningStays(b, ExpireLeases(b, |b.builds|))
  {
    hide ExpireLeases;
    ExpiryRuns(b, |b.builds|);
  }

  lemma SweepStays(b: Board, keep: set<nat>)
    ensures RunningStays(b, Sweep(b, keep))
  {
  }

  lemma TimeStays(b: Board, now: nat)
    requires b.now <= now
    ensures RunningStays(b, b.(now := now))
  {
  }

  // ---------------------------------------------------------------- the guest's result

  /** The builder measures and digests every file itself; a result that disagrees is refused. The records it returns
      describe the files they name, which is what an upload needs, and nothing the guest listed is lost. */
  method ReadGuestResult(sha: Digest, output: map<string, Bytes>, claimed: seq<ArtifactRecord>)
      returns (artifacts: Option<seq<ArtifactRecord>>)
    ensures artifacts.Some? <==> forall a <- claimed ::
        a.file in output && Describes(sha, a, output[a.file]) && a.size <= MAXIMUM_ARTIFACT_BYTES
    ensures artifacts.Some? ==>
        multiset(artifacts.value) == multiset(claimed) && Sorted(Planning.CompareRecords, artifacts.value)
    ensures artifacts.Some? ==> forall a <- artifacts.value :: a.file in output && Describes(sha, a, output[a.file])
  {
    Planning.RecordsAreOrdered();
    var sorted: seq<ArtifactRecord> := [];
    for i := 0 to |claimed|
      invariant multiset(sorted) == multiset(claimed[..i]) && Sorted(Planning.CompareRecords, sorted)
      invariant forall a <- claimed[..i] ::
          a.file in output && Describes(sha, a, output[a.file]) && a.size <= MAXIMUM_ARTIFACT_BYTES
    {
      hide Planning.CompareRecords, Insert, Sorted, Consistent, Distinguishes;
      var a := claimed[i];
      assert claimed[..i + 1] == claimed[..i] + [a];
      if a.file !in output || |output[a.file]| == 0 || |output[a.file]| > MAXIMUM_ARTIFACT_BYTES { return None; }
      if sha(output[a.file]) != a.sha256 || |output[a.file]| != a.size { return None; }
      InsertSorts(Planning.CompareRecords, sorted, a);
      sorted := Insert(Planning.CompareRecords, sorted, a);
    }
    assert claimed[..|claimed|] == claimed;
    forall a <- sorted ensures a in claimed { assert a in multiset(sorted); }
    artifacts := Some(sorted);
  }

  // ---------------------------------------------------------------- the job directory

  /** `state.json` only; with `report.json`; with the marker that the report was accepted; or no directory at all. */
  datatype Directory = Removed | Started(attempt: nat) | Built(report: Builds.Report) | Marked(report: Builds.Report)

  function AttemptOf(d: Directory): nat
    requires d != Removed
  {
    match d case Started(attempt) => attempt case Built(report) => report.attempt case Marked(report) => report.attempt
  }

  datatype Sent = Agreed(uploading: bool) | Conflict | BadRequest | NoReply

  datatype Delivered = Done | Discarded | Trouble

  const TRIES: nat := 6

  /** What the server holds of an accepted report, as long as it does not try the build again. */
  ghost predicate Holds(b: Board, id: nat, r: Builds.Report) {
    && id < |b.builds| && r.attempt <= b.builds[id].attempt
    && (b.builds[id].attempt == r.attempt ==> Reported(b.builds[id].state) && b.builds[id].artifacts == r.artifacts)
  }

  lemma HoldsStays(b: Board, e: Board, id: nat, r: Builds.Report)
    requires RunningStays(b, e) && Holds(b, id, r)
    ensures Holds(e, id, r)
  {
    assert ReportKept(b.builds[id], e.builds[id]);
  }

  /** The builder's output files are what its report describes. */
  ghost predicate Made(sha: Digest, r: Builds.Report, output: map<string, Bytes>) {
    r.succeeded ==> forall a <- r.artifacts :: a.file in output && Describes(sha, a, output[a.file])
  }

  ghost predicate CollisionFree(sha: Digest) {
    forall x, y :: sha(x) == sha(y) ==> x == y
  }

  /** The build has succeeded, and unless the server completed a later attempt, what it stores is the builder's
      output. */
  ghost predicate Stored(sha: Digest, b: Board, id: nat, r: Builds.Report, output: map<string, Bytes>)
    requires Made(sha, r, output) && r.succeeded
  {
    && id < |b.builds| && b.builds[id].state == Succeeded
    && (b.builds[id].attempt == r.attempt ==>
          forall a <- r.artifacts ::
            var stored := SlotOf(b, id, a.file).stored;
                stored.Some? && (CollisionFree(sha) ==> stored.value == output[a.file]))
  }

  /** What any stretch of events keeps for a job: leases stay, what is not awaited is never awaited again, and an
      accepted report is kept. */
  twostate predicate Kept(table: BuildTable, id: nat)
    reads table
  {
    && old(table.leases) <= table.leases
    && (forall a ::
        (id, a) in old(table.leases) && !Awaits(old(table.Value()), id, a) ==> !Awaits(table.Value(), id, a))
    && (forall r :: Holds(old(table.Value()), id, r) ==> Holds(table.Value(), id, r))
  }

  class Job {
    const table: BuildTable
    const id: nat
    /** The server's revisions, as the reviews leave them. */
    var revisions: seq<Revision>
    var directory: Directory

    constructor (table: BuildTable, id: nat, revisions: seq<Revision>)
      ensures this.table == table && this.id == id && this.revisions == revisions && directory == Removed
    {
      this.table, this.id, this.revisions, directory := table, id, revisions, Removed;
    }

    /** The job's attempt was leased from the server, and the marker stands for an accepted report. */
    ghost predicate Valid()
      reads this, table
    {
      && BoardInv(table.sha, revisions, table.Value())
      && (directory != Removed ==> (id, AttemptOf(directory)) in table.leases)
      && (directory.Marked? ==>
            && !Awaits(table.Value(), id, directory.report.attempt)
            && (directory.report.succeeded ==> Holds(table.Value(), id, directory.report)))
    }

    /** One thing that time, reviews, the server's own loops or other clients do. */
    method Elsewhere()
      requires BoardInv(table.sha, revisions, table.Value())
      modifies `revisions, table
      ensures BoardInv(table.sha, revisions, table.Value()) && Kept(table, id)
    {
      hide BoardInv, RunningStays, Awaits, Lease, TakeReport, UploadPut, Complete, Holds, Moves, Schedule, Rebuild,
          Sweep;
      ghost var before := table.Value();
      ghost var event := Builds.Elapsed(before.now);
      if * {
        var later: nat :| later >= table.now;
        event := Builds.Elapsed(later);
        table.now := later;
      } else if * {
        var decided: seq<Revision>, unused: nat :| unused >= 0;
        if Moves(revisions, decided) {
          MovesKeep(table.sha, revisions, decided, before);
          revisions := decided;
        }
      } else if * {
        event := Builds.Expiry;
        table.Expire();
      } else if * {
        var c: Closure, seconds: nat :| seconds >= 0;
        event := Builds.Polled(c, seconds);
        var _ := table.LeaseNext(revisions, c, seconds);
      } else if * {
        var other: nat, r: Builds.Report :| other >= 0;
        event := Builds.Reported(other, r);
        var _ := table.Report(revisions, other, r);
      } else if * {
        var other: nat, file: string, offset: nat, body: Bytes :| other >= 0;
        event := Builds.Chunk(other, file, offset, body);
        var _ := table.Upload(revisions, other, file, offset, body);
      } else if * {
        var other: nat :| other >= 0;
        event := Builds.Finished(other);
        var _ := table.CompleteBuild(revisions, other);
      } else if * {
        var c: Closure, unused: nat :| unused >= 0;
        var bases := table.ScheduleBuilds(revisions, c);
        event := Builds.Scheduling(c, bases);
      } else if * {
        var base: string, unused: nat :| unused >= 0;
        event := Builds.RebuildAsked(base);
        var _ := table.RebuildPackage(revisions, base);
      } else {
        var keep: set<nat>, unused: nat :| unused >= 0;
        event := Builds.Swept(keep);
        var _ := table.RemoveOthers(keep);
      }
      OneEvent(table.sha, revisions, before, event, table.Value());
      AfterEvent(table.sha, revisions, before, event, table.Value(), id);
    }

    /** What happens to the server between two calls. */
    method Meanwhile()
      requires BoardInv(table.sha, revisions, table.Value())
      modifies `revisions, table
      ensures BoardInv(table.sha, revisions, table.Value()) && Kept(table, id)
    {
      hide BoardInv, Awaits, Holds;
      var count: nat :| count >= 0;
      for i := 0 to count
        invariant BoardInv(table.sha, revisions, table.Value()) && Kept(table, id)
      {
        Elsewhere();
      }
    }

    /** Send the report. The request or the reply may get lost. `met` is the server as the request finds it: the answer
        is a conflict exactly when it does not wait for this attempt, and whatever it answers, it waits no more. */
    method SendReport(r: Builds.Report) returns (sent: Sent, ghost met: Board)
      requires BoardInv(table.sha, revisions, table.Value()) && (id, r.attempt) in table.leases
      modifies `revisions, table
      ensures BoardInv(table.sha, revisions, table.Value()) && Kept(table, id)
      ensures sent != NoReply ==>
          (sent == Conflict <==> !Awaits(met, id, r.attempt)) && !Awaits(table.Value(), id, r.attempt)
      ensures !Awaits(old(table.Value()), id, r.attempt) ==> sent == Conflict || sent == NoReply
      ensures sent.Agreed? ==> (id, r.attempt) in table.reports && (sent.uploading <==> r.succeeded)
      ensures sent.Agreed? && r.succeeded ==> Holds(table.Value(), id, r)
    {
      hide BoardInv, TakeReport, ValidArtifacts, Holds;
      Meanwhile();
      met := table.Value();
      if * { return NoReply, met; }
      ghost var before := table.Value();
      var awaited := table.IsHeld(id) && table.builds[id].state == Running && table.builds[id].attempt == r.attempt;
      var _ := table.Report(revisions, id, r);
      RowsExist(table.sha, revisions, before, id);
      ReportTaken(revisions, before, id, r);
      OneEvent(table.sha, revisions, before, Builds.Reported(id, r), table.Value());
      AfterEvent(table.sha, revisions, before, Builds.Reported(id, r), table.Value(), id);
      if !awaited {
        sent := Conflict;
      } else if r.succeeded && table.builds[id].state != Uploading {
        sent := BadRequest;
      } else {
        sent := Agreed(table.builds[id].state == Uploading);
      }
      if * { sent := NoReply; }
    }

    /** Ask for completion; the answer is positive only when every artifact is stored. */
    method SendComplete(r: Builds.Report, ghost output: map<string, Bytes>) returns (sent: Sent)
      requires BoardInv(table.sha, revisions, table.Value()) && Holds(table.Value(), id, r)
      requires r.succeeded && Made(table.sha, r, output)
      modifies `revisions, table
      ensures BoardInv(table.sha, revisions, table.Value()) && Kept(table, id)
      ensures sent.Agreed? ==> Stored(table.sha, table.Value(), id, r, output)
    {
      hide BoardInv, Awaits, Holds, Stored, Made;
      Meanwhile();
      if * { return NoReply; }
      ghost var before := table.Value();
      var completed := table.CompleteBuild(revisions, id);
      OneEvent(table.sha, revisions, before, Builds.Finished(id), table.Value());
      AfterEvent(table.sha, revisions, before, Builds.Finished(id), table.Value(), id);
      sent := if completed then Agreed(false) else Conflict;
      if completed { CompletedIsStored(table.sha, revisions, before, id, r, output); }
      if * { sent := NoReply; }
    }

    /** Report unless the marker says so already, send the files, complete. How each file goes is `Upload.UploadFile`;
        here its end is open, and the server's own checks decide what is stored. A report that is not awaited is
        refused, whatever came of it before. */
    method Deliver(r: Builds.Report, ghost output: map<string, Bytes>) returns (delivered: Delivered)
      requires Valid() && directory != Removed && AttemptOf(directory) == r.attempt && Made(table.sha, r, output)
      requires directory.Marked? ==> directory.report == r
      modifies this, table
      ensures Valid() && Kept(table, id) && (directory == old(directory) || directory == Marked(r))
      ensures directory.Marked? || delivered != Trouble ==> !Awaits(table.Value(), id, r.attempt)
      ensures delivered == Done && r.succeeded ==> Stored(table.sha, table.Value(), id, r, output)
      ensures !old(directory).Marked? && !Awaits(old(table.Value()), id, r.attempt) ==>
                delivered != Done && directory == old(directory)
    {
      hide BoardInv, Awaits, Holds, Stored, Made;
      var uploading := directory.Marked?;
      if !uploading {
        var sent, _ := SendReport(r);
        match sent {
          case Agreed(more) =>
            directory := Marked(r);
            uploading := more;
          case Conflict => return Discarded;
          case BadRequest => return Trouble;
          case NoReply => return Trouble;
        }
      }
      if !r.succeeded || !uploading { return Done; }
      for i := 0 to |r.artifacts|
        invariant Valid() && Kept(table, id) && directory == Marked(r)
      {
        Meanwhile();
        if * { return Discarded; } else if * { return Trouble; }
      }
      var sent := SendComplete(r, output);
      delivered := if sent.Agreed? then Done else if sent == Conflict then Discarded else Trouble;
    }

    /** Try six times. The directory goes only once the server no longer waits for this attempt's report - and then, by
        `NeverAwaitedAgain`, never will. A finished build whose report is not awaited is never delivered. */
    method DeliverWithRetries(r: Builds.Report, ghost output: map<string, Bytes>) returns (ghost tried: nat)
      requires Valid() && directory != Removed && AttemptOf(directory) == r.attempt && Made(table.sha, r, output)
      requires directory.Marked? ==> directory.report == r
      modifies this, table
      ensures Valid() && (directory == Removed || directory == old(directory) || directory == Marked(r))
      ensures 1 <= tried <= 6 && (directory != Removed ==> tried == 6)
      ensures directory == Removed || directory.Marked? ==> !Awaits(table.Value(), id, r.attempt)
      ensures !old(directory).Marked? && !Awaits(old(table.Value()), id, r.attempt) ==>
                directory == Removed || directory == old(directory)
    {
      hide BoardInv, Awaits, Holds, Stored, Made;
      tried := 0;
      for i := 0 to TRIES
        invariant tried == i
        invariant Valid() && Kept(table, id) && directory != Removed && AttemptOf(directory) == r.attempt
        invariant directory == old(directory) || directory == Marked(r)
        invariant !old(directory).Marked? && !Awaits(old(table.Value()), id, r.attempt) ==>
                    directory == old(directory) && !Awaits(table.Value(), id, r.attempt)
      {
        var delivered := Deliver(r, output);
        tried := tried + 1;
        if delivered != Trouble {
          directory := Removed;
          return;
        }
      }
    }

    /** Build what was leased, keep the result, and deliver it. Whatever the build ends with, it ends with a report. */
    method Execute(r: Builds.Report, ghost output: map<string, Bytes>)
      requires BoardInv(table.sha, revisions, table.Value()) && (id, r.attempt) in table.leases
          && Made(table.sha, r, output)
      modifies this, table
      ensures Valid() && (directory == Removed || directory == Built(r) || directory == Marked(r))
      ensures directory != Built(r) ==> !Awaits(table.Value(), id, r.attempt)
    {
      hide BoardInv, Awaits, Holds, Made;
      directory := Started(r.attempt);
      Meanwhile();
      directory := Built(r);
      var _ := DeliverWithRetries(r, output);
    }

    /** After a restart: deliver what the directory holds, or report that the build was interrupted. */
    method Recover(ghost output: map<string, Bytes>)
      requires Valid() && (directory.Built? ==> Made(table.sha, directory.report, output))
      requires directory.Marked? ==> Made(table.sha, directory.report, output)
      modifies this, table
      ensures Valid()
      ensures old(directory) != Removed && (directory == Removed || directory.Marked?) ==>
                !Awaits(table.Value(), id, AttemptOf(old(directory)))
      ensures directory != Removed ==> old(directory) != Removed && AttemptOf(directory) == AttemptOf(old(directory))
      ensures old(directory).Started? && directory.Marked? ==>
                !directory.report.succeeded && directory.report.code == "BUILDER_RESTARTED"
      ensures old(directory).Built? && directory.Marked? ==> directory.report == old(directory).report
    {
      hide BoardInv, Awaits, Holds;
      match directory {
        case Removed =>
        case Started(attempt) =>
          var report := Builds.Report(attempt, false, [], true, "BUILDER_RESTARTED");
          var _ := DeliverWithRetries(report, output);
        case Built(report) => var _ := DeliverWithRetries(report, output);
        case Marked(report) => var _ := DeliverWithRetries(report, output);
      }
    }
  }

  /** One event keeps what a job relies on. */
  lemma AfterEvent(sha: Digest, revisions: seq<Revision>, b: Board, event: Builds.Event, e: Board, id: nat)
    requires BoardInv(sha, revisions, b) && !event.Decided?
        && e == Builds.After(sha, Workshop(revisions, b), event).board
    ensures forall a :: (id, a) in b.leases && !Awaits(b, id, a) ==> !Awaits(e, id, a)
    ensures forall r :: Holds(b, id, r) ==> Holds(e, id, r)
  {
    hide BoardInv, Builds.After, RunningStays, Awaits, Holds;
    EventStays(sha, Workshop(revisions, b), event);
    forall a | (id, a) in b.leases && !Awaits(b, id, a) ensures !Awaits(e, id, a) { NotAwaitedStays(b, e, id, a); }
    forall r | Holds(b, id, r) ensures Holds(e, id, r) { HoldsStays(b, e, id, r); }
  }

  lemma CompletedIsStored(sha: Digest, revisions: seq<Revision>, b: Board, id: nat, r: Builds.Report,
      output: map<string, Bytes>)
    requires BoardInv(sha, revisions, b) && Complete(b, id) != b && Holds(b, id, r) && r.succeeded
        && Made(sha, r, output)
    ensures Stored(sha, Complete(b, id), id, r, output)
  {
    hide BoardInv, Made;
    var e := Complete(b, id);
    RowOf(sha, revisions, b, id);
    if e.builds[id].attempt == r.attempt {
      forall a <- r.artifacts
        ensures SlotOf(e, id, a.file).stored.Some?
        ensures a.file in output && (CollisionFree(sha) ==> SlotOf(e, id, a.file).stored.value == output[a.file])
      {
        assert a.file in output && Describes(sha, a, output[a.file]) by { MadeOf(sha, r, output, a); }
        StoredIsSafe(sha, revisions, b, id, a);
      }
    }
  }

  lemma MadeOf(sha: Digest, r: Builds.Report, output: map<string, Bytes>, a: ArtifactRecord)
    requires Made(sha, r, output) && r.succeeded && a in r.artifacts
    ensures a.file in output && Describes(sha, a, output[a.file])
  {
  }

  lemma OneEvent(sha: Digest, revisions: seq<Revision>, b: Board, event: Builds.Event, e: Board)
    requires BoardInv(sha, revisions, b) && !event.Decided?
        && e == Builds.After(sha, Workshop(revisions, b), event).board
    ensures BoardInv(sha, revisions, e) && b.leases <= e.leases
  {
    hide BoardInv, Builds.After;
    RevisionsKept(sha, Workshop(revisions, b), event);
    Builds.EventKeeps(sha, Workshop(revisions, b), event);
  }

  lemma RevisionsKept(sha: Digest, w: Workshop, e: Builds.Event)
    requires !e.Decided?
    ensures Builds.After(sha, w, e).revisions == w.revisions
  {
  }

  lemma RowsExist(sha: Digest, revisions: seq<Revision>, b: Board, id: nat)
    requires BoardInv(sha, revisions, b)
    ensures id < |b.builds| ==> b.builds[id].revision < |revisions|
  {
    if id < |b.builds| { RowOf(sha, revisions, b, id); }
  }

  /** A report is taken exactly when it is awaited; then it is logged, the wait is over, and only a good one starts an
      upload. */
  lemma ReportTaken(revisions: seq<Revision>, b: Board, id: nat, r: Builds.Report)
    requires id < |b.builds| ==> b.builds[id].revision < |revisions|
    ensures var e := TakeReport(revisions, b, id, r);
            && (e != b <==> Awaits(b, id, r.attempt)) && !Awaits(e, id, r.attempt) && |e.builds| == |b.builds|
            && (Awaits(b, id, r.attempt) ==>
                (id, r.attempt) in e.reports && (e.builds[id].state == Uploading ==> r.succeeded))
            && (Awaits(b, id, r.attempt) && e.builds[id].state == Uploading ==> Holds(e, id, r))
  {
    hide ValidArtifacts, ClassifyErrorCode;
    var e := TakeReport(revisions, b, id, r);
    if Awaits(b, id, r.attempt) {
      assert e.reports[|e.reports| - 1] == (id, r.attempt);
      assert |e.reports| == |b.reports| + 1;
    }
  }

  /** A finished build whose marker was lost with the reply is thrown away although the server waits for its upload: the
      second report of an attempt that is uploading is a conflict. The lease then runs out, and the build is tried
      again. */
  lemma LostMarkerDiscards(revisions: seq<Revision>, b: Board, id: nat, r: Builds.Report)
    requires Awaits(b, id, r.attempt) && b.builds[id].revision < |revisions|
    requires r.succeeded && r.wellNamed && ValidArtifacts(r.artifacts, revisions[b.builds[id].revision].outputs)
    ensures var e := TakeReport(revisions, b, id, r);
            && e.builds[id].state == Uploading && e.builds[id].attempt == r.attempt
            && !Awaits(e, id, r.attempt) && TakeReport(revisions, e, id, r) == e
  {
    hide ValidArtifacts;
  }
}
