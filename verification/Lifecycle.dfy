/** What the build handlers do, row by row: who is preferred, leased, retried, refused, completed, cancelled, queued. */
module Lifecycle {
  import opened Protocol
  import opened Store
  import opened Graph
  import opened Closure
  import opened Upload
  import opened Builds

  // ---------------------------------------------------------------- the preferred build

  /** The build succeeded and has files, all of them on disk. */
  ghost predicate OnDisk(b: Board, base: string, x: nat) {
    && x < |b.builds| && b.builds[x].base == base && b.builds[x].state == Succeeded && b.builds[x].artifacts != []
    && forall a <- b.builds[x].artifacts ::
         x in b.directories && a.file in b.directories[x] && b.directories[x][a.file].stored.Some?
  }

  /** The build is of the newest approved revision of its package. */
  predicate UpToDate(revisions: seq<Revision>, b: Board, x: nat)
    requires x < |b.builds|
  {
    var r := b.builds[x].revision;
    && r < |revisions| && revisions[r].base == b.builds[x].base && revisions[r].state == Approved
    && forall j :: r < j < |revisions| && revisions[j].base == b.builds[x].base ==> revisions[j].state != Approved
  }

  /** No build on disk is preferred to `u`: none of the newest approved revision when `u` is of an older one, and among
      builds that are alike in this, none that finished later. */
  ghost predicate Preferred(revisions: seq<Revision>, b: Board, base: string, u: nat) {
    && OnDisk(b, base, u)
    && forall x: nat | OnDisk(b, base, x) ::
         && (UpToDate(revisions, b, x) ==> UpToDate(revisions, b, u))
         && (UpToDate(revisions, b, x) == UpToDate(revisions, b, u) ==>
               && b.builds[x].finishedAt.Some? && b.builds[u].finishedAt.Some?
               && b.builds[x].finishedAt.value <= b.builds[u].finishedAt.value)
  }

  /** Main result about the usable build: it is the preferred one on disk, and with at most five succeeded builds of the
      package there is one as soon as any is on disk. */
  lemma UsableIsPreferred(sha: Digest, revisions: seq<Revision>, b: Board, base: string)
    requires BoardInv(sha, revisions, b)
    ensures var usable := UsableBuild(revisions, b, base);
            && (usable.Some? ==> Preferred(revisions, b, base, usable.value))
            && (|set x | 0 <= x < |b.builds| && b.builds[x].base == base && b.builds[x].state == Succeeded| <= 5 ==>
                  (usable.Some? <==> exists x: nat :: OnDisk(b, base, x)))
  {
    hide BoardInv, Best, LatestApproved;
    var usable, latest := UsableBuild(revisions, b, base), LatestApproved(revisions, base);
    forall x: nat ensures OnDisk(b, base, x) <==> Candidate(b, base, x) && Present(b, x) {
      if x < |b.builds| { PresentOnDisk(b, x); }
    }
    forall x: nat | OnDisk(b, base, x)
      ensures UpToDate(revisions, b, x) <==> Some(b.builds[x].revision) == latest
      ensures b.builds[x].finishedAt.Some?
    {
      RowOf(sha, revisions, b, x);
    }
    if usable.Some? {
      forall x: nat | OnDisk(b, base, x)
        ensures !Before(b, latest, x, usable.value)
      {
        assert Candidate(b, base, x) && x !in {};
      }
    }
    assert Unseen(b, base, {}) == set x | 0 <= x < |b.builds| && b.builds[x].base == base
        && b.builds[x].state == Succeeded;
    if |Unseen(b, base, {})| <= 5 { UsableOfFew(revisions, b, base); }
  }

  lemma PresentOnDisk(b: Board, x: nat)
    requires x < |b.builds|
    ensures Present(b, x) <==> b.builds[x].artifacts != [] && forall a <- b.builds[x].artifacts ::
              x in b.directories && a.file in b.directories[x] && b.directories[x][a.file].stored.Some?
  {
    if Present(b, x) {
      forall a <- b.builds[x].artifacts
        ensures x in b.directories && a.file in b.directories[x] && b.directories[x][a.file].stored.Some?
      {
        assert SlotOf(b, x, a.file).stored.Some?;
      }
    }
  }

  // ---------------------------------------------------------------- failing

  /** The failures that may pass by themselves. */
  predicate MayPass(code: string) {
    code in ["DOCKER_DAEMON_UNAVAILABLE", "DOCKER_PULL_FAILED", "DOCKER_NETWORK_TIMEOUT", "BUILD_NETWORK_TRANSIENT",
             "BUILDER_RESTARTED", "LEASE_EXPIRED", "UPLOAD_FAILED", "DEPENDENCY_DOWNLOAD_FAILED"]
  }

  /** What a failure makes of a row: the first two attempts are queued again when it may pass, otherwise it is final. */
  ghost predicate FailedRow(row: Build, after: Build, code: string) {
    && after.revision == row.revision && after.base == row.base && after.dependencies == row.dependencies
    && after.leaseExpires.None? && after.errorCode == Some(code)
    && (if MayPass(code) && row.attempt <= 2 then
          after.state == Queued && after.attempt == row.attempt + 1 && after.artifacts == []
        else
          after.state == Failed && after.attempt == row.attempt && after.finishedAt.Some?)
  }

  lemma CodesThatPass(code: string)
    ensures MayPass(code) <==> ClassifyErrorCode(code) == Transient
  {
  }

  /** A failing attempt changes its own row and loses its files, and nothing else changes. */
  lemma FailureDecides(b: Board, id: nat, code: string)
    requires id < |b.builds|
    ensures var e := FailBuild(b, id, code);
            && |e.builds| == |b.builds| && FailedRow(b.builds[id], e.builds[id], code)
            && (forall i :: 0 <= i < |b.builds| && i != id ==> e.builds[i] == b.builds[i])
            && e.directories == b.directories - {id} && e.leases == b.leases && e.reports == b.reports
  {
    hide ClassifyErrorCode, MayPass;
    CodesThatPass(code);
  }

  /** The builder's lease ran out. */
  predicate Overdue(row: Build, now: nat) {
    row.state in {Running, Uploading} && row.leaseExpires.Some? && row.leaseExpires.value < now
  }

  /** Expiry fails exactly the builds whose lease ran out, as a failure that may pass. */
  lemma {:induction false} ExpiryDecides(b: Board, n: nat)
    requires n <= |b.builds|
    ensures var e := ExpireLeases(b, n);
            && |e.builds| == |b.builds| && e.leases == b.leases && e.reports == b.reports
            && (forall i :: 0 <= i < |b.builds| ==>
                  if i < n && Overdue(b.builds[i], b.now) then
                    FailedRow(b.builds[i], e.builds[i], "LEASE_EXPIRED") && i !in e.directories
                  else
                    && e.builds[i] == b.builds[i] && (i in e.directories <==> i in b.directories)
                    && (i in b.directories ==> e.directories[i] == b.directories[i]))
  {
    hide FailedRow, FailBuild;
    if n > 0 {
      ExpiryDecides(b, n - 1);
      if Overdue(b.builds[n - 1], b.now) { FailureDecides(ExpireLeases(b, n - 1), n - 1, "LEASE_EXPIRED"); }
    }
  }

  // ---------------------------------------------------------------- leasing

  /** Nothing is left to choose for the package, and every other package it reaches has a usable build. */
  ghost predicate MayStart(revisions: seq<Revision>, b: Board, c: Closure, base: string) {
    base !in c.unresolved
    && forall d | ReachedFrom(c.graph, {base}, d) && d != base :: UsableBuild(revisions, b, d).Some?
  }

  lemma ReadyMayStart(revisions: seq<Revision>, b: Board, c: Closure, base: string)
    ensures Ready(revisions, b, c, base) <==> MayStart(revisions, b, c, base)
  {
    hide UsableBuild, ReachedFrom;
    ClosureSetIsExact(c.graph, {base});
    if Ready(revisions, b, c, base) {
      forall d | ReachedFrom(c.graph, {base}, d) && d != base ensures UsableBuild(revisions, b, d).Some? {
        assert d in Prerequisites(c, base);
      }
    }
  }

  /** Who is leased: after expiry the first queued build that may start, for the seconds asked for within ten minutes
      and two days; nobody exactly when none may start. */
  lemma LeaseDecides(revisions: seq<Revision>, b: Board, c: Closure, seconds: nat)
    ensures var e, after := ExpireLeases(b, |b.builds|), Lease(revisions, b, c, seconds);
            if forall i :: 0 <= i < |e.builds| && e.builds[i].state == Queued ==>
                !MayStart(revisions, e, c, e.builds[i].base)
            then after == e
            else exists i :: LeasedRow(revisions, e, after, c, i, seconds)
  {
    hide Ready, ExpireLeases, MayStart, UsableBuild;
    var e := ExpireLeases(b, |b.builds|);
    forall i | 0 <= i < |e.builds|
      ensures Ready(revisions, e, c, e.builds[i].base) <==> MayStart(revisions, e, c, e.builds[i].base)
    {
      ReadyMayStart(revisions, e, c, e.builds[i].base);
    }
    var next := FirstReady(revisions, e, c, 0);
    if next.Some? {
      var i := next.value;
      hide LeasedRow, Claim;
      ClaimLeases(revisions, e, c, i, seconds);
      assert LeasedRow(revisions, e, Lease(revisions, b, c, seconds), c, i, seconds);
      assert e.builds[i].state == Queued && MayStart(revisions, e, c, e.builds[i].base);
    } else {
      assert Lease(revisions, b, c, seconds) == e;
      forall i | 0 <= i < |e.builds| && e.builds[i].state == Queued
        ensures !MayStart(revisions, e, c, e.builds[i].base)
      {
        assert !Ready(revisions, e, c, e.builds[i].base);
      }
    }
  }

  ghost predicate LeasedRow(revisions: seq<Revision>, e: Board, after: Board, c: Closure, i: nat, seconds: nat) {
    && i < |e.builds| == |after.builds|
    && e.builds[i].state == Queued && MayStart(revisions, e, c, e.builds[i].base)
    && (forall j :: 0 <= j < i && e.builds[j].state == Queued ==> !MayStart(revisions, e, c, e.builds[j].base))
    && (forall j :: 0 <= j < |e.builds| && j != i ==> after.builds[j] == e.builds[j])
    && var row, was := after.builds[i], e.builds[i];
       && row.state == Running && row.attempt == was.attempt && row.revision == was.revision && row.base == was.base
       && row.artifacts == was.artifacts && row.errorCode.None? && row.leaseExpires.Some?
       && (600 <= seconds <= 172800 ==> row.leaseExpires.value == e.now + seconds)
       && (seconds < 600 ==> row.leaseExpires.value == e.now + 600)
       && (seconds > 172800 ==> row.leaseExpires.value == e.now + 172800)
       && (forall d :: d in row.dependencies <==> exists base ::
             ReachedFrom(c.graph, {was.base}, base) && base != was.base && UsableBuild(revisions, e, base) == Some(d))
       && after.leases == e.leases + [(i, was.attempt)] && after.reports == e.reports
       && after.directories == e.directories
  }

  lemma ClaimLeases(revisions: seq<Revision>, e: Board, c: Closure, i: nat, seconds: nat)
    requires i < |e.builds| && e.builds[i].state == Queued && Ready(revisions, e, c, e.builds[i].base)
    requires MayStart(revisions, e, c, e.builds[i].base)
    requires forall j :: 0 <= j < i && e.builds[j].state == Queued ==> !MayStart(revisions, e, c, e.builds[j].base)
    ensures LeasedRow(revisions, e, Claim(revisions, e, c, i, seconds), c, i, seconds)
  {
    hide UsableBuild, ReachedFrom, MayStart;
    var base := e.builds[i].base;
    ClosureSetIsExact(c.graph, {base});
    var builds := DependencyBuilds(revisions, e, c, base);
    forall d ensures d in builds <==> exists other ::
        ReachedFrom(c.graph, {base}, other) && other != base && UsableBuild(revisions, e, other) == Some(d)
    {
      if other :| ReachedFrom(c.graph, {base}, other) && other != base && UsableBuild(revisions, e, other) == Some(d) {
        assert other in Prerequisites(c, base);
      }
    }
  }

  // ---------------------------------------------------------------- reports, uploads, completion

  /** The builder still holds the lease. */
  predicate HoldsLease(b: Board, id: nat) {
    && id < |b.builds| && b.builds[id].state in {Running, Uploading}
    && b.builds[id].leaseExpires.Some? && b.now < b.builds[id].leaseExpires.value
  }

  /** The server waits for this report. */
  predicate Counts(revisions: seq<Revision>, b: Board, id: nat, r: Report) {
    HoldsLease(b, id) && b.builds[id].state == Running && b.builds[id].attempt == r.attempt
    && b.builds[id].revision < |revisions|
  }

  /** What a report does: nothing unless it counts; a good one with a fitting artifact list starts the upload, a good
      one without is final, and a bad one fails with its code. */
  lemma ReportDecides(revisions: seq<Revision>, b: Board, id: nat, r: Report)
    ensures var e := TakeReport(revisions, b, id, r);
            if !Counts(revisions, b, id, r) then e == b
            else
              var fits := r.wellNamed && ValidArtifacts(r.artifacts, revisions[b.builds[id].revision].outputs);
              var code := if r.succeeded then "OUTPUT_MISMATCH" else if 1 <= |r.code| <= 64 then r.code
                  else "BUILD_FAILED";
              && e.reports == b.reports + [(id, r.attempt)] && e.leases == b.leases && |e.builds| == |b.builds|
              && (forall i :: 0 <= i < |b.builds| && i != id ==> e.builds[i] == b.builds[i])
              && (if r.succeeded && fits then
                    && e.builds[id] == b.builds[id].(state := Uploading, artifacts := r.artifacts)
                    && e.directories.Keys == b.directories.Keys + {id}
                  else FailedRow(b.builds[id], e.builds[id], code) && id !in e.directories)
              && (r.succeeded && !fits ==> e.builds[id].state == Failed)
  {
    hide ValidArtifacts, FailBuild, FailedRow, MayPass, ClassifyErrorCode;
    if Counts(revisions, b, id, r) {
      FailureDecides(b, id, ReportedCode(r));
      FailureDecides(b, id, "OUTPUT_MISMATCH");
      MismatchIsFinal(b.builds[id]);
    }
  }

  lemma MismatchIsFinal(row: Build)
    ensures forall after :: FailedRow(row, after, "OUTPUT_MISMATCH") ==> after.state == Failed
  {
  }

  /** The file name begins with what its record says of the package. */
  predicate NamedFor(a: ArtifactRecord) {
    var name := a.packageName + "-" + a.packageVersion + "-" + a.architecture + ".pkg.tar.";
    |name| <= |a.file| && a.file[..|name|] == name
  }

  /** Which artifact lists are accepted: 1 to 64 of one version, of 1 byte to 8 GiB, for this architecture or any, named
      for what they hold, no file or package twice, and exactly the declared outputs. */
  lemma ArtifactsAccepted(artifacts: seq<ArtifactRecord>, outputs: seq<string>)
    ensures ValidArtifacts(artifacts, outputs) <==>
              && 1 <= |artifacts| <= 64
              && (forall i :: 0 <= i < |artifacts| ==>
                    && 1 <= artifacts[i].size <= 8589934592 && artifacts[i].architecture in ["x86_64", "any"]
                    && artifacts[i].packageVersion == artifacts[0].packageVersion && NamedFor(artifacts[i])
                    && artifacts[i].packageName in outputs)
              && (forall i, j :: 0 <= i < j < |artifacts| ==>
                    artifacts[i].file != artifacts[j].file && artifacts[i].packageName != artifacts[j].packageName)
              && (forall name <- outputs :: exists i :: 0 <= i < |artifacts| && artifacts[i].packageName == name)
  {
    hide DistinctFiles, DistinctNames, NamedFor, FilePrefix;
    forall a ensures NamedFor(a) <==> FilePrefix(a) <= a.file { PrefixIsName(a); }
    Apart(artifacts);
    forall name <- outputs
      ensures (exists a <- artifacts :: a.packageName == name) <==>
          exists i :: 0 <= i < |artifacts| && artifacts[i].packageName == name
    {
      if a :| a in artifacts && a.packageName == name {
        var i :| 0 <= i < |artifacts| && artifacts[i] == a;
      }
    }
    assert ValidArtifacts(artifacts, outputs) ==> forall i :: 0 <= i < |artifacts| ==> artifacts[i] in artifacts;
  }

  lemma PrefixIsName(a: ArtifactRecord)
    ensures NamedFor(a) <==> FilePrefix(a) <= a.file
  {
  }

  lemma Apart(artifacts: seq<ArtifactRecord>)
    ensures DistinctFiles(artifacts) && DistinctNames(artifacts) <==>
              forall i, j :: 0 <= i < j < |artifacts| ==>
                artifacts[i].file != artifacts[j].file && artifacts[i].packageName != artifacts[j].packageName
  {
  }

  /** A chunk is looked at while the lease holds, the build uploads, and the file is in its report; it touches that one
      file. */
  lemma ChunkDecides(sha: Digest, b: Board, id: nat, file: string, offset: nat, body: Bytes)
    ensures var e, reply := UploadPut(sha, b, id, file, offset, body), UploadReply(sha, b, id, file, offset, body);
            && e.builds == b.builds && e.leases == b.leases && e.reports == b.reports
            && (reply.Some? <==>
                  && HoldsLease(b, id) && b.builds[id].state == Uploading && id in b.directories
                  && exists a <- b.builds[id].artifacts :: a.file == file)
            && (reply.None? ==> e == b)
            && (reply.Some? ==>
                  && e.directories.Keys == b.directories.Keys
                  && (forall i <- b.directories | i != id :: e.directories[i] == b.directories[i])
                  && (forall other <- b.directories[id] | other != file ::
                        other in e.directories[id] && e.directories[id][other] == b.directories[id][other])
                  && exists a <- b.builds[id].artifacts ::
                       && a.file == file && file in e.directories[id]
                       && (e.directories[id][file], reply.value) ==
                            Put(sha, if file in b.directories[id] then b.directories[id][file] else Slot([], None), a,
                                offset, body))
  {
    hide Put;
  }

  /** What one chunk does to one file: a complete file stays; a chunk is taken exactly when it begins where the file
      ends, has 1 byte to 32 MiB and stays within the size; and the last one makes the file complete or empty, by its
      digest. */
  lemma ChunkIsTaken(sha: Digest, slot: Slot, a: ArtifactRecord, offset: nat, body: Bytes)
    ensures var (e, reply) := Put(sha, slot, a, offset, body);
            var taken := slot.stored.None? && offset == |slot.part| && 1 <= |body| <= 33554432
                && offset + |body| <= a.size;
            && (slot.stored.Some? ==> e == slot && reply == Accepted(UploadStatus(a.size, a.size, true)))
            && (slot.stored.None? && offset != |slot.part| ==> e == slot && reply == OffsetMismatch)
            && (slot.stored.None? && offset == |slot.part| && !taken ==> e == slot && reply == ChunkInvalid)
            && (taken && offset + |body| < a.size ==>
                  e == Slot(slot.part + body, None) && reply == Accepted(UploadStatus(a.size, offset + |body|, false)))
            && (taken && offset + |body| == a.size ==>
                  if sha(slot.part + body) == a.sha256 then
                    e == Slot([], Some(slot.part + body)) && reply == Accepted(UploadStatus(a.size, a.size, true))
                  else e == Slot([], None) && reply == DigestMismatch)
  {
  }

  /** Completion succeeds exactly while the lease holds, for an uploading build with every artifact stored. */
  lemma CompletionDecides(b: Board, id: nat)
    ensures var e := Complete(b, id);
            var done := HoldsLease(b, id) && b.builds[id].state == Uploading
                && forall a <- b.builds[id].artifacts ::
                     id in b.directories && a.file in b.directories[id] && b.directories[id][a.file].stored.Some?;
            if done then
              && e.builds == b.builds[id := b.builds[id].(state := Succeeded, leaseExpires := None,
                   finishedAt := Some(b.now))]
              && e.directories == b.directories && e.leases == b.leases && e.reports == b.reports
            else e == b
  {
    if HoldsLease(b, id) {
      forall a <- b.builds[id].artifacts
        ensures SlotOf(b, id, a.file).stored.Some? <==>
            id in b.directories && a.file in b.directories[id] && b.directories[id][a.file].stored.Some?
      {}
    }
  }

  // ---------------------------------------------------------------- scheduling

  /** The newest approved revision of the package is `r`. */
  predicate NewestApproved(revisions: seq<Revision>, base: string, r: nat) {
    && r < |revisions| && revisions[r].base == base && revisions[r].state == Approved
    && forall j :: r < j < |revisions| && revisions[j].base == base ==> revisions[j].state != Approved
  }

  lemma LatestIsNewest(revisions: seq<Revision>, base: string)
    ensures forall r: nat :: LatestApproved(revisions, base) == Some(r) <==> NewestApproved(revisions, base, r)
    ensures LatestApproved(revisions, base).None? <==>
              forall r <- revisions :: !(r.base == base && r.state == Approved)
  {
    var latest := LatestApproved(revisions, base);
    forall r: nat | NewestApproved(revisions, base, r) ensures latest == Some(r) {
      assert latest.Some? && !(latest.value < r) && !(r < latest.value);
    }
    if latest.None? {
      forall r <- revisions ensures !(r.base == base && r.state == Approved) {
        var i :| 0 <= i < |revisions| && revisions[i] == r;
      }
    } else {
      assert revisions[latest.value] in revisions;
    }
  }

  /** Which queued builds are cancelled: of packages outside the closure, and of revisions that are not the newest
      approved ones. Every other row stays. */
  lemma CancellationDecides(revisions: seq<Revision>, c: Closure, builds: seq<Build>, now: nat)
    ensures var e := CancelStale(revisions, c, builds, now);
            && |e| == |builds|
            && forall i :: 0 <= i < |builds| ==>
                 var row := builds[i];
                 e[i] == if row.state == Queued && row.base !in c.members then
                     row.(state := Failed, errorCode := Some("NOT_REQUIRED"), finishedAt := Some(now))
                   else if row.state == Queued && !NewestApproved(revisions, row.base, row.revision) then
                     row.(state := Failed, errorCode := Some("SUPERSEDED"), finishedAt := Some(now))
                   else row
  {
    hide LatestApproved, NewestApproved;
    var e := CancelStale(revisions, c, builds, now);
    forall i | 0 <= i < |builds|
      ensures LatestApproved(revisions, builds[i].base) == Some(builds[i].revision) <==>
          NewestApproved(revisions, builds[i].base, builds[i].revision)
      ensures e[i] == Cancelled(revisions, c, builds[i], now)
    {
      LatestIsNewest(revisions, builds[i].base);
    }
  }

  /** A build that waits for its first lease. */
  predicate New(revisions: seq<Revision>, row: Build) {
    && row.revision < |revisions| && row.base == revisions[row.revision].base && row.state == Queued
    && row.attempt == 1 && row.artifacts == [] && row.leaseExpires.None? && row.finishedAt.None?
    && row.errorCode.None? && row.dependencies == {}
  }

  /** What is queued: a listed package gets a build of its newest approved revision exactly when that has none yet; old
      rows stay, and nothing else is added. */
  lemma {:induction false} QueueingDecides(revisions: seq<Revision>, builds: seq<Build>, bases: seq<string>)
    ensures var e := EnqueueAll(revisions, builds, bases);
            && builds <= e
            && (forall base <- bases, r: nat | NewestApproved(revisions, base, r) ::
                  exists i :: 0 <= i < |e| && e[i].revision == r)
            && (forall i :: |builds| <= i < |e| ==>
                  && New(revisions, e[i]) && e[i].base in bases
                  && NewestApproved(revisions, e[i].base, e[i].revision)
                  && forall j :: 0 <= j < i ==> e[j].revision != e[i].revision)
  {
    hide LatestApproved, NewestApproved;
    if |bases| > 0 {
      var before, base := bases[..|bases| - 1], bases[|bases| - 1];
      QueueingDecides(revisions, builds, before);
      var mid, e := EnqueueAll(revisions, builds, before), EnqueueAll(revisions, builds, bases);
      LatestIsNewest(revisions, base);
      var latest := LatestApproved(revisions, base);
      assert forall other <- bases :: other == base || other in before;
      assert base in bases;
      if latest.Some? {
        if exists row <- mid :: row.revision == latest.value {
          var row :| row in mid && row.revision == latest.value;
          var i :| 0 <= i < |mid| && mid[i] == row;
          assert e == mid;
        } else {
          assert e == mid + [NewBuild(revisions, latest.value)];
          assert e[|mid|].revision == latest.value;
          NewestHasBase(revisions, base, latest.value);
          forall j | 0 <= j < |mid| ensures mid[j].revision != latest.value { assert mid[j] in mid; }
        }
      }
      forall other <- bases, r: nat | NewestApproved(revisions, other, r)
        ensures exists i :: 0 <= i < |e| && e[i].revision == r
      {
        if other in before {
          var i :| 0 <= i < |mid| && mid[i].revision == r;
          assert e[i].revision == r;
        } else {
          assert latest == Some(r);
        }
      }
    }
  }

  lemma NewestHasBase(revisions: seq<Revision>, base: string, r: nat)
    requires NewestApproved(revisions, base, r)
    ensures r < |revisions| && revisions[r].base == base
  {
  }

  /** Asking for a rebuild queues the newest approved revision exactly when there is one and no build of the package is
      queued, running or uploading. */
  lemma RebuildDecides(revisions: seq<Revision>, b: Board, base: string)
    ensures var e := Rebuild(revisions, b, base);
            var idle := forall row <- b.builds :: row.base == base ==> row.state in {Succeeded, Failed};
            && (idle && (exists r <- revisions :: r.base == base && r.state == Approved) ==>
                  && |e.builds| == |b.builds| + 1 && b.builds <= e.builds
                  && New(revisions, e.builds[|b.builds|]) && e.builds[|b.builds|].base == base
                  && NewestApproved(revisions, base, e.builds[|b.builds|].revision)
                  && e.directories == b.directories)
            && (!idle || (forall r <- revisions :: !(r.base == base && r.state == Approved)) ==> e == b)
  {
    LatestIsNewest(revisions, base);
  }

  /** Cleaning up removes exactly the directories that are neither kept nor of a running or uploading build. */
  lemma CleanUpDecides(b: Board, keep: set<nat>)
    ensures var e := Sweep(b, keep);
            && e == b.(directories := e.directories)
            && (forall id :: id in e.directories <==>
                  && id in b.directories
                  && (id in keep || (id < |b.builds| && b.builds[id].state in {Running, Uploading})))
            && forall id <- e.directories :: e.directories[id] == b.directories[id]
  {
  }
}
