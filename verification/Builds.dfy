/** The life of a build: queued, leased, reported, uploaded, completed; retried at most twice; and which build of a
    package is the usable one. */
module Builds {
  import opened Protocol
  import opened Store
  import opened Graph
  import opened Closure
  import opened Upload

  datatype BuildState = Queued | Running | Uploading | Succeeded | Failed

  datatype Build = Build(
    revision: nat, base: string, state: BuildState, attempt: nat, artifacts: seq<ArtifactRecord>,
    leaseExpires: Option<nat>, dependencies: set<nat>, finishedAt: Option<nat>, errorCode: Option<string>)

  /** The build table, the artifact directories, and the clock. `leases` and `reports` record, by build and attempt,
      what was leased and which reports were accepted. */
  datatype Board = Board(
    builds: seq<Build>, directories: map<nat, map<string, Slot>>, now: nat,
    leases: seq<(nat, nat)>, reports: seq<(nat, nat)>)

  predicate Active(state: BuildState) {
    state == Queued || state == Running || state == Uploading
  }

  // ---------------------------------------------------------------- the usable build of a package

  function SlotOf(b: Board, id: nat, file: string): Slot {
    if id in b.directories && file in b.directories[id] then b.directories[id][file] else EMPTY_SLOT
  }

  /** All artifacts of the build are on disk. */
  predicate Present(b: Board, id: nat)
    requires id < |b.builds|
  {
    b.builds[id].artifacts != [] && forall a <- b.builds[id].artifacts :: SlotOf(b, id, a.file).stored.Some?
  }

  predicate Candidate(b: Board, base: string, id: nat) {
    id < |b.builds| && b.builds[id].base == base && b.builds[id].state == Succeeded
  }

  function FinishedAt(b: Board, id: nat): nat
    requires id < |b.builds|
  {
    if b.builds[id].finishedAt.Some? then b.builds[id].finishedAt.value else 0
  }

  /** Builds of the latest approved revision come first, then the one that finished last. */
  predicate Before(b: Board, latest: Option<nat>, x: nat, y: nat)
    requires x < |b.builds| && y < |b.builds|
  {
    var cx, cy := Some(b.builds[x].revision) == latest, Some(b.builds[y].revision) == latest;
    if cx != cy then cx else FinishedAt(b, x) > FinishedAt(b, y)
  }

  /** The first candidate, in that order, among the ids below `n` that were not looked at yet. */
  function Best(b: Board, latest: Option<nat>, base: string, seen: set<nat>, n: nat): (r: Option<nat>)
    requires n <= |b.builds|
    ensures r.Some? ==> r.value < n && Candidate(b, base, r.value) && r.value !in seen
    ensures forall x | 0 <= x < n && Candidate(b, base, x) && x !in seen :: r.Some? && !Before(b, latest, x, r.value)
  {
    if n == 0 then None else
    var best := Best(b, latest, base, seen, n - 1);
    if !Candidate(b, base, n - 1) || n - 1 in seen then best
    else if best.None? || Before(b, latest, n - 1, best.value) then Some(n - 1)
    else best
  }

  /** Of the first `k` candidates not looked at yet, the first whose artifacts are on disk. */
  function UsableAmong(b: Board, latest: Option<nat>, base: string, seen: set<nat>, k: nat): (r: Option<nat>)
    ensures r.Some? ==> Candidate(b, base, r.value) && r.value !in seen && Present(b, r.value)
    ensures r.Some? ==> forall x | Candidate(b, base, x) && x !in seen && Before(b, latest, x, r.value) ::
        !Present(b, x)
    decreases k
  {
    if k == 0 then None else
    var best := Best(b, latest, base, seen, |b.builds|);
    if best.None? then None
    else if Present(b, best.value) then best
    else UsableAmong(b, latest, base, seen + {best.value}, k - 1)
  }

  const LOOK_AT: nat := 5

  function UsableBuild(revisions: seq<Revision>, b: Board, base: string): (r: Option<nat>)
    ensures r.Some? ==> Candidate(b, base, r.value) && Present(b, r.value)
  {
    UsableAmong(b, LatestApproved(revisions, base), base, {}, LOOK_AT)
  }

  function Unseen(b: Board, base: string, seen: set<nat>): set<nat> {
    set x | 0 <= x < |b.builds| && Candidate(b, base, x) && x !in seen
  }

  lemma {:induction false} UsableAmongFew(b: Board, latest: Option<nat>, base: string, seen: set<nat>, k: nat)
    requires |Unseen(b, base, seen)| <= k
    ensures UsableAmong(b, latest, base, seen, k).None? ==> forall x <- Unseen(b, base, seen) :: !Present(b, x)
    decreases k
  {
    if k > 0 {
      var best := Best(b, latest, base, seen, |b.builds|);
      if best.Some? && !Present(b, best.value) {
        assert Unseen(b, base, seen + {best.value}) == Unseen(b, base, seen) - {best.value};
        UsableAmongFew(b, latest, base, seen + {best.value}, k - 1);
      }
    }
  }

  /** The usable build is complete for a package with at most five succeeded builds: there is one exactly when one of
      them is on disk. Of more than five, only the five best are looked at. */
  lemma UsableOfFew(revisions: seq<Revision>, b: Board, base: string)
    requires |Unseen(b, base, {})| <= LOOK_AT
    ensures UsableBuild(revisions, b, base).Some? <==> exists x :: Candidate(b, base, x) && Present(b, x)
  {
    UsableAmongFew(b, LatestApproved(revisions, base), base, {}, LOOK_AT);
    if x :| Candidate(b, base, x) && Present(b, x) {
      assert x in Unseen(b, base, {});
    }
  }

  // ---------------------------------------------------------------- dependencies

  /** The AUR packages that must be built before this one: the graph closure without the package itself. */
  ghost function Prerequisites(c: Closure, base: string): set<string> {
    ClosureSet(c.graph, {base}) - {base}
  }

  ghost predicate Ready(revisions: seq<Revision>, b: Board, c: Closure, base: string) {
    base !in c.unresolved && forall d <- Prerequisites(c, base) :: UsableBuild(revisions, b, d).Some?
  }

  ghost function DependencyBuilds(revisions: seq<Revision>, b: Board, c: Closure, base: string): set<nat>
    requires Ready(revisions, b, c, base)
  {
    set d | d in Prerequisites(c, base) :: UsableBuild(revisions, b, d).value
  }

  // ---------------------------------------------------------------- what each handler does

  function Update(b: Board, id: nat, row: Build): Board
    requires id < |b.builds|
  {
    b.(builds := b.builds[id := row])
  }

  /** A failed attempt: a transient failure goes back to the queue at most twice; the artifact directory goes. */
  function FailBuild(b: Board, id: nat, code: string): Board
    requires id < |b.builds|
  {
    var row := b.builds[id];
    var retry := ClassifyErrorCode(code) == Transient && row.attempt <= MAXIMUM_TRANSIENT_RETRIES;
    var failed := if retry
      then row.(state := Queued, attempt := row.attempt + 1, leaseExpires := None, errorCode := Some(code),
          artifacts := [])
      else row.(state := Failed, leaseExpires := None, errorCode := Some(code), finishedAt := Some(b.now));
    Update(b, id, failed).(directories := b.directories - {id}, now := b.now + 1)
  }

  predicate Expired(b: Board, id: nat)
    requires id < |b.builds|
  {
    var row := b.builds[id];
    (row.state == Running || row.state == Uploading) && row.leaseExpires.Some? && row.leaseExpires.value < b.now
  }

  /** Fail the builds below `n` whose lease has run out, in order. */
  function ExpireLeases(b: Board, n: nat): (r: Board)
    requires n <= |b.builds|
    ensures |r.builds| == |b.builds|
  {
    if n == 0 then b else
    var before := ExpireLeases(b, n - 1);
    if Expired(b, n - 1) then FailBuild(before, n - 1, "LEASE_EXPIRED") else before
  }

  /** The first queued build, in creation order, whose dependencies are ready. */
  ghost function FirstReady(revisions: seq<Revision>, b: Board, c: Closure, from: nat): (r: Option<nat>)
    requires from <= |b.builds|
    ensures r.Some? ==>
        from <= r.value < |b.builds| && b.builds[r.value].state == Queued
            && Ready(revisions, b, c, b.builds[r.value].base)
    ensures forall i | from <= i < (if r.Some? then r.value else |b.builds|) ::
        b.builds[i].state == Queued ==> !Ready(revisions, b, c, b.builds[i].base)
    decreases |b.builds| - from
  {
    if from == |b.builds| then None
    else if b.builds[from].state == Queued && Ready(revisions, b, c, b.builds[from].base) then Some(from)
    else FirstReady(revisions, b, c, from + 1)
  }

  function Clamp(seconds: nat): nat {
    if seconds < 600 then 600 else if seconds > 172800 then 172800 else seconds
  }

  ghost function Claim(revisions: seq<Revision>, b: Board, c: Closure, id: nat, seconds: nat): Board
    requires id < |b.builds| && Ready(revisions, b, c, b.builds[id].base)
  {
    var row := b.builds[id];
    Update(b, id, row.(state := Running, leaseExpires := Some(b.now + Clamp(seconds)),
                       dependencies := DependencyBuilds(revisions, b, c, row.base), errorCode := None))
      .(leases := b.leases + [(id, row.attempt)], now := b.now + 1)
  }

  ghost function Lease(revisions: seq<Revision>, b: Board, c: Closure, seconds: nat): Board {
    var e := ExpireLeases(b, |b.builds|);
    var next := FirstReady(revisions, e, c, 0);
    if next.None? then e else Claim(revisions, e, c, next.value, seconds)
  }

  /** The builder still holds the build. */
  predicate Held(b: Board, id: nat) {
    && id < |b.builds| && (b.builds[id].state == Running || b.builds[id].state == Uploading)
    && b.builds[id].leaseExpires.Some? && b.builds[id].leaseExpires.value > b.now
  }

  /** The part of the file name that the record's metadata fixes. */
  function FilePrefix(a: ArtifactRecord): string {
    a.packageName + "-" + a.packageVersion + "-" + a.architecture + ".pkg.tar."
  }

  /** One artifact's size, architecture, version and file name. */
  predicate Fitting(a: ArtifactRecord, version: string) {
    && 0 < a.size <= MAXIMUM_ARTIFACT_BYTES && (a.architecture == "x86_64" || a.architecture == "any")
    && a.packageVersion == version && FilePrefix(a) <= a.file
  }

  ghost predicate ValidArtifacts(artifacts: seq<ArtifactRecord>, outputs: seq<string>) {
    && 1 <= |artifacts| <= 64
    && (forall a <- artifacts :: Fitting(a, artifacts[0].packageVersion))
    && DistinctFiles(artifacts) && DistinctNames(artifacts)
    && (forall a <- artifacts :: a.packageName in outputs)
    && (forall name <- outputs :: exists a <- artifacts :: a.packageName == name)
  }

  datatype Report = Report(attempt: nat, succeeded: bool, artifacts: seq<ArtifactRecord>, wellNamed: bool, code: string)

  function ReportedCode(r: Report): string {
    if 0 < |r.code| <= 64 then r.code else "BUILD_FAILED"
  }

  /** A report counts for the current attempt of a running build only. `wellNamed` is the verdict of the name and digest
      syntax checks. */
  ghost function TakeReport(revisions: seq<Revision>, b: Board, id: nat, r: Report): Board {
    if !Held(b, id) || b.builds[id].attempt != r.attempt || b.builds[id].state != Running
        || b.builds[id].revision >= |revisions| then b else
    var next :=
      if !r.succeeded then FailBuild(b, id, ReportedCode(r))
      else if !r.wellNamed || !ValidArtifacts(r.artifacts, revisions[b.builds[id].revision].outputs)
          then FailBuild(b, id, "OUTPUT_MISMATCH")
      else
        Update(b, id, b.builds[id].(state := Uploading, artifacts := r.artifacts))
          .(directories := b.directories[id := if id in b.directories then b.directories[id] else map[]],
              now := b.now + 1);
    next.(reports := b.reports + [(id, r.attempt)])
  }

  function FindArtifact(artifacts: seq<ArtifactRecord>, file: string): (r: Option<ArtifactRecord>)
    ensures r.Some? ==> r.value in artifacts && r.value.file == file
    ensures r.None? ==> forall a <- artifacts :: a.file != file
  {
    if |artifacts| == 0 then None
    else if artifacts[|artifacts| - 1].file == file then Some(artifacts[|artifacts| - 1])
    else FindArtifact(artifacts[..|artifacts| - 1], file)
  }

  function UploadPut(sha: Digest, b: Board, id: nat, file: string, offset: nat, body: Bytes): Board {
    if !Held(b, id) || b.builds[id].state != Uploading || id !in b.directories then b else
    var a := FindArtifact(b.builds[id].artifacts, file);
    if a.None? then b else
    var slot := Put(sha, SlotOf(b, id, file), a.value, offset, body).0;
    b.(directories := b.directories[id := b.directories[id][file := slot]])
  }

  /** The reply to a chunk; none when the lease is over, the build is not uploading, or the file is not in its
      report. */
  function UploadReply(sha: Digest, b: Board, id: nat, file: string, offset: nat, body: Bytes): Option<PutReply> {
    if !Held(b, id) || b.builds[id].state != Uploading || id !in b.directories then None else
    var a := FindArtifact(b.builds[id].artifacts, file);
    if a.None? then None else Some(Put(sha, SlotOf(b, id, file), a.value, offset, body).1)
  }

  function Complete(b: Board, id: nat): Board {
    if !Held(b, id) || b.builds[id].state != Uploading then b
    else if exists a <- b.builds[id].artifacts :: SlotOf(b, id, a.file).stored.None? then b
    else Update(b, id, b.builds[id].(state := Succeeded, leaseExpires := None,
        finishedAt := Some(b.now))).(now := b.now + 1)
  }

  function NewBuild(revisions: seq<Revision>, id: nat): Build
    requires id < |revisions|
  {
    Build(id, revisions[id].base, Queued, 1, [], None, {}, None, None)
  }

  /** Why a queued build is no longer wanted. */
  function Stale(revisions: seq<Revision>, c: Closure, row: Build): Option<string> {
    if row.state != Queued then None
    else if row.base !in c.members then Some("NOT_REQUIRED")
    else if LatestApproved(revisions, row.base) != Some(row.revision) then Some("SUPERSEDED")
    else None
  }

  function Cancelled(revisions: seq<Revision>, c: Closure, row: Build, now: nat): Build {
    var reason := Stale(revisions, c, row);
    if reason.Some? then row.(state := Failed, errorCode := reason, finishedAt := Some(now)) else row
  }

  function CancelStale(revisions: seq<Revision>, c: Closure, builds: seq<Build>, now: nat): (r: seq<Build>)
    ensures |r| == |builds| && forall i :: 0 <= i < |r| ==> r[i] == Cancelled(revisions, c, builds[i], now)
  {
    if |builds| == 0 then [] else
    CancelStale(revisions, c, builds[..|builds| - 1], now) + [Cancelled(revisions, c, builds[|builds| - 1], now)]
  }

  /** Queue the latest approved revision of a package unless it has a build already. */
  function Enqueue(revisions: seq<Revision>, builds: seq<Build>, base: string): seq<Build> {
    var latest := LatestApproved(revisions, base);
    if latest.None? || exists row <- builds :: row.revision == latest.value then builds
    else builds + [NewBuild(revisions, latest.value)]
  }

  function EnqueueAll(revisions: seq<Revision>, builds: seq<Build>, bases: seq<string>): seq<Build> {
    if |bases| == 0 then builds else
    Enqueue(revisions, EnqueueAll(revisions, builds, bases[..|bases| - 1]), bases[|bases| - 1])
  }

  /** `bases` lists the members of the closure. */
  function Schedule(revisions: seq<Revision>, b: Board, c: Closure, bases: seq<string>): Board {
    b.(builds := EnqueueAll(revisions, CancelStale(revisions, c, b.builds, b.now), bases), now := b.now + 1)
  }

  function Rebuild(revisions: seq<Revision>, b: Board, base: string): Board {
    var latest := LatestApproved(revisions, base);
    if latest.None? || exists row <- b.builds :: row.base == base && Active(row.state) then b
    else b.(builds := b.builds + [NewBuild(revisions, latest.value)], now := b.now + 1)
  }

  /** Clean up: directories outside `keep` go, unless their build is still in progress. */
  function Sweep(b: Board, keep: set<nat>): Board {
    b.(directories := map id | id in b.directories && (id in keep || InProgress(b, id)) :: b.directories[id])
  }

  predicate InProgress(b: Board, id: nat) {
    id < |b.builds| && (b.builds[id].state == Running || b.builds[id].state == Uploading)
  }

  // ---------------------------------------------------------------- the invariant

  /** Revisions only grow, keep their identity, and stay approved. */
  predicate Moves(before: seq<Revision>, after: seq<Revision>) {
    && |before| <= |after|
    && forall i :: 0 <= i < |before| ==>
         && after[i].base == before[i].base && after[i].outputs == before[i].outputs
         && (before[i].state == Approved ==> after[i].state == Approved)
  }

  /** One build: its revision is approved, its attempt bounded, and its state goes with its lease, its logs, its
      artifacts and its directory. */
  ghost predicate RowOk(revisions: seq<Revision>, b: Board, i: nat)
    requires i < |b.builds|
  {
    var row := b.builds[i];
    && 1 <= row.attempt <= MAXIMUM_TRANSIENT_RETRIES + 1
    && row.revision < |revisions| && revisions[row.revision].state == Approved
        && revisions[row.revision].base == row.base
    && (row.state == Running || row.state == Uploading ==> row.leaseExpires.Some?)
    && (row.state == Running || row.state == Uploading || row.state == Succeeded ==> (i, row.attempt) in b.leases)
    && (row.state == Uploading || row.state == Succeeded ==>
          (i, row.attempt) in b.reports && ValidArtifacts(row.artifacts, revisions[row.revision].outputs))
    && (row.state == Uploading ==> i in b.directories)
    && (row.state == Succeeded ==> row.finishedAt.Some?)
    && (i in b.directories ==> row.state == Uploading || row.state == Succeeded)
    && (forall d <- row.dependencies :: d < |b.builds| && b.builds[d].state == Succeeded)
  }

  /** Nothing is leased or reported twice, nothing is reported that was not leased, and a build's next lease, or the
      report it is waiting for, is not in the log yet. */
  ghost predicate LogsOk(b: Board) {
    && NoRepeats(b.leases) && NoRepeats(b.reports)
    && (forall x <- b.leases ::
        x.0 < |b.builds| && x.1 <= b.builds[x.0].attempt
        && (b.builds[x.0].state == Queued ==> x.1 < b.builds[x.0].attempt))
    && (forall x <- b.reports :: x in b.leases && (b.builds[x.0].state == Running ==> x.1 < b.builds[x.0].attempt))
  }

  /** What is on disk belongs to a reported artifact and is safe; a succeeded build's directory has every artifact. */
  ghost predicate FilesOk(sha: Digest, b: Board, i: nat)
    requires i < |b.builds|
  {
    i in b.directories ==>
      && (forall file <- b.directories[i] ::
            var a := FindArtifact(b.builds[i].artifacts, file);
            a.Some? && SafeSlot(sha, b.directories[i][file], a.value))
      && (b.builds[i].state == Succeeded ==> Present(b, i))
  }

  ghost predicate OneActive(builds: seq<Build>) {
    forall i, j ::
        0 <= i < j < |builds| && builds[i].revision == builds[j].revision ==>
        !(Active(builds[i].state) && Active(builds[j].state))
  }

  ghost predicate BoardInv(sha: Digest, revisions: seq<Revision>, b: Board) {
    && (forall i :: 0 <= i < |b.builds| ==> RowOk(revisions, b, i) && FilesOk(sha, b, i))
    && (forall i <- b.directories :: i < |b.builds|)
    && LogsOk(b) && OneActive(b.builds)
  }

  // ---------------------------------------------------------------- every operation keeps it

  /** Succeeded and failed builds stay as they are, attempts never go back, logs only grow. */
  ghost predicate Progresses(b: Board, e: Board) {
    && |b.builds| <= |e.builds| && b.now <= e.now && b.leases <= e.leases && b.reports <= e.reports
    && (forall i :: 0 <= i < |b.builds| ==>
          && e.builds[i].revision == b.builds[i].revision && e.builds[i].base == b.builds[i].base
          && b.builds[i].attempt <= e.builds[i].attempt
          && (!Active(b.builds[i].state) ==> e.builds[i] == b.builds[i]))
  }

  /** One active build changes, and the rest of the board stays. */
  ghost predicate OneRow(b: Board, e: Board, i: nat) {
    && i < |b.builds| == |e.builds| && Active(b.builds[i].state) && e.builds == b.builds[i := e.builds[i]]
    && e.builds[i].revision == b.builds[i].revision && e.builds[i].base == b.builds[i].base
    && b.builds[i].attempt <= e.builds[i].attempt
    && b.leases <= e.leases && b.reports <= e.reports && b.now <= e.now
    && (forall j :: j != i ==> (j in e.directories <==> j in b.directories))
    && (forall j :: j != i && j in b.directories ==> e.directories[j] == b.directories[j])
  }

  lemma OneRowKeeps(sha: Digest, revisions: seq<Revision>, b: Board, e: Board, i: nat)
    requires BoardInv(sha, revisions, b) && OneRow(b, e, i)
    requires RowOk(revisions, e, i) && FilesOk(sha, e, i) && LogsOk(e)
    ensures BoardInv(sha, revisions, e) && Progresses(b, e)
  {
    hide ValidArtifacts, SafeSlot, FindArtifact, LogsOk;
    forall j | 0 <= j < |e.builds| ensures RowOk(revisions, e, j) && FilesOk(sha, e, j) {
      if j != i {
        assert RowOk(revisions, b, j) && FilesOk(sha, b, j) && e.builds[j] == b.builds[j];
        if j in b.directories && b.builds[j].state == Succeeded { assert Present(b, j); }
      }
    }
    forall j | j in e.directories ensures j < |e.builds| { if j != i { assert j in b.directories; } }
  }

  lemma FailKeeps(sha: Digest, revisions: seq<Revision>, b: Board, i: nat, code: string)
    requires BoardInv(sha, revisions, b) && InProgress(b, i)
    ensures BoardInv(sha, revisions, FailBuild(b, i, code)) && Progresses(b, FailBuild(b, i, code))
  {
    hide ValidArtifacts, SafeSlot, FindArtifact, ClassifyErrorCode;
    var e := FailBuild(b, i, code);
    assert RowOk(revisions, b, i);
    assert OneRow(b, e, i);
    assert RowOk(revisions, e, i) by {
      forall d <- e.builds[i].dependencies ensures d < |e.builds| && e.builds[d].state == Succeeded {}
    }
    OneRowKeeps(sha, revisions, b, e, i);
  }

  lemma {:induction false} ExpireKeeps(sha: Digest, revisions: seq<Revision>, b: Board, n: nat)
    requires BoardInv(sha, revisions, b) && n <= |b.builds|
    ensures var e := ExpireLeases(b, n); BoardInv(sha, revisions, e) && Progresses(b, e)
    ensures forall j :: n <= j < |b.builds| ==> ExpireLeases(b, n).builds[j] == b.builds[j]
  {
    hide BoardInv, ClassifyErrorCode;
    if n > 0 {
      ExpireKeeps(sha, revisions, b, n - 1);
      if Expired(b, n - 1) { FailKeeps(sha, revisions, ExpireLeases(b, n - 1), n - 1, "LEASE_EXPIRED"); }
    }
  }

  lemma ClaimKeeps(sha: Digest, revisions: seq<Revision>, b: Board, c: Closure, i: nat, seconds: nat)
    requires BoardInv(sha, revisions, b) && i < |b.builds| && b.builds[i].state == Queued
        && Ready(revisions, b, c, b.builds[i].base)
    ensures var e := Claim(revisions, b, c, i, seconds); BoardInv(sha, revisions, e) && Progresses(b, e)
  {
    hide ValidArtifacts, SafeSlot, FindArtifact, Prerequisites, UsableBuild;
    var e := Claim(revisions, b, c, i, seconds);
    assert RowOk(revisions, b, i);
    assert RowOk(revisions, e, i) by {
      forall d <- e.builds[i].dependencies ensures d < |e.builds| && e.builds[d].state == Succeeded {
        assert d in DependencyBuilds(revisions, b, c, b.builds[i].base);
      }
    }
    OneRowKeeps(sha, revisions, b, e, i);
  }

  lemma LeaseKeeps(sha: Digest, revisions: seq<Revision>, b: Board, c: Closure, seconds: nat)
    requires BoardInv(sha, revisions, b)
    ensures var e := Lease(revisions, b, c, seconds); BoardInv(sha, revisions, e) && Progresses(b, e)
  {
    hide BoardInv, Claim, Ready, ExpireLeases;
    ExpireKeeps(sha, revisions, b, |b.builds|);
    var e := ExpireLeases(b, |b.builds|);
    var next := FirstReady(revisions, e, c, 0);
    if next.Some? { ClaimKeeps(sha, revisions, e, c, next.value, seconds); }
  }

  lemma ReportKeeps(sha: Digest, revisions: seq<Revision>, b: Board, i: nat, r: Report)
    requires BoardInv(sha, revisions, b)
    ensures var e := TakeReport(revisions, b, i, r); BoardInv(sha, revisions, e) && Progresses(b, e)
  {
    hide ValidArtifacts, SafeSlot, FindArtifact, ClassifyErrorCode;
    var e := TakeReport(revisions, b, i, r);
    if e != b {
      assert RowOk(revisions, b, i);
      assert OneRow(b, e, i);
      assert RowOk(revisions, e, i) by {
        forall d <- e.builds[i].dependencies ensures d < |e.builds| && e.builds[d].state == Succeeded {}
      }
      OneRowKeeps(sha, revisions, b, e, i);
    }
  }

  lemma PutKeeps(sha: Digest, revisions: seq<Revision>, b: Board, i: nat, file: string, offset: nat, body: Bytes)
    requires BoardInv(sha, revisions, b)
    ensures var e := UploadPut(sha, b, i, file, offset, body); BoardInv(sha, revisions, e) && Progresses(b, e)
  {
    hide ValidArtifacts, FindArtifact;
    var e := UploadPut(sha, b, i, file, offset, body);
    if e != b {
      assert RowOk(revisions, b, i) && FilesOk(sha, b, i);
      var a := FindArtifact(b.builds[i].artifacts, file).value;
      ArtifactSize(revisions, b, i, a);
      PutIsSafe(sha, SlotOf(b, i, file), a, offset, body);
      hide Put, SafeSlot;
      OneRowKeeps(sha, revisions, b, e, i);
    }
  }

  lemma ArtifactSize(revisions: seq<Revision>, b: Board, i: nat, a: ArtifactRecord)
    requires i < |b.builds| && RowOk(revisions, b, i) && b.builds[i].state == Uploading && a in b.builds[i].artifacts
    ensures a.size > 0
  {
  }

  lemma PutIsSafe(sha: Digest, slot: Slot, a: ArtifactRecord, offset: nat, body: Bytes)
    requires a.size > 0 && (slot == EMPTY_SLOT || SafeSlot(sha, slot, a))
    ensures SafeSlot(sha, Put(sha, slot, a, offset, body).0, a)
  {
  }

  lemma CompleteKeeps(sha: Digest, revisions: seq<Revision>, b: Board, i: nat)
    requires BoardInv(sha, revisions, b)
    ensures var e := Complete(b, i); BoardInv(sha, revisions, e) && Progresses(b, e)
  {
    hide ValidArtifacts, SafeSlot, FindArtifact;
    var e := Complete(b, i);
    if e != b {
      assert RowOk(revisions, b, i) && FilesOk(sha, b, i);
      assert Present(e, i) by { ArtifactsNonempty(revisions, b, i); }
      assert RowOk(revisions, e, i) by {
        forall d <- e.builds[i].dependencies ensures d < |e.builds| && e.builds[d].state == Succeeded {}
      }
      OneRowKeeps(sha, revisions, b, e, i);
    }
  }

  lemma ArtifactsNonempty(revisions: seq<Revision>, b: Board, i: nat)
    requires i < |b.builds| && RowOk(revisions, b, i)
        && (b.builds[i].state == Uploading || b.builds[i].state == Succeeded)
    ensures b.builds[i].artifacts != []
  {
  }

  lemma CancelKeeps(sha: Digest, revisions: seq<Revision>, b: Board, c: Closure)
    requires BoardInv(sha, revisions, b)
    ensures var e := b.(builds := CancelStale(revisions, c, b.builds, b.now), now := b.now + 1);
            BoardInv(sha, revisions, e) && Progresses(b, e)
  {
    hide ValidArtifacts, SafeSlot, FindArtifact, LatestApproved, CancelStale;
    var e := b.(builds := CancelStale(revisions, c, b.builds, b.now), now := b.now + 1);
    forall i | 0 <= i < |e.builds| ensures RowOk(revisions, e, i) && FilesOk(sha, e, i) {
      assert RowOk(revisions, b, i) && FilesOk(sha, b, i);
      assert e.builds[i] == Cancelled(revisions, c, b.builds[i], b.now);
      forall d <- e.builds[i].dependencies ensures d < |e.builds| && e.builds[d].state == Succeeded {
        assert e.builds[d] == Cancelled(revisions, c, b.builds[d], b.now);
      }
    }
    forall x <- e.leases
        ensures x.0 < |e.builds| && x.1 <= e.builds[x.0].attempt
        && (e.builds[x.0].state == Queued ==> x.1 < e.builds[x.0].attempt) {
      assert e.builds[x.0] == Cancelled(revisions, c, b.builds[x.0], b.now);
    }
  }

  /** A new build may be queued when no build of its revision is active. */
  lemma QueueKeeps(sha: Digest, revisions: seq<Revision>, b: Board, revision: nat)
    requires BoardInv(sha, revisions, b) && revision < |revisions| && revisions[revision].state == Approved
    requires forall row <- b.builds :: row.revision == revision ==> !Active(row.state)
    ensures var e := b.(builds := b.builds + [NewBuild(revisions, revision)]);
        BoardInv(sha, revisions, e) && Progresses(b, e)
  {
    hide ValidArtifacts, SafeSlot, FindArtifact;
    var e := b.(builds := b.builds + [NewBuild(revisions, revision)]);
    forall i | 0 <= i < |e.builds| ensures RowOk(revisions, e, i) && FilesOk(sha, e, i) {
      if i < |b.builds| {
        assert RowOk(revisions, b, i) && FilesOk(sha, b, i);
        if i in b.directories && b.builds[i].state == Succeeded { assert Present(b, i); }
      }
    }
  }

  lemma {:induction false} EnqueueKeeps(sha: Digest, revisions: seq<Revision>, b: Board, bases: seq<string>)
    requires BoardInv(sha, revisions, b)
    ensures var e := b.(builds := EnqueueAll(revisions, b.builds, bases));
        BoardInv(sha, revisions, e) && Progresses(b, e)
  {
    hide BoardInv, LatestApproved;
    if |bases| > 0 {
      EnqueueKeeps(sha, revisions, b, bases[..|bases| - 1]);
      var mid := b.(builds := EnqueueAll(revisions, b.builds, bases[..|bases| - 1]));
      var latest := LatestApproved(revisions, bases[|bases| - 1]);
      if latest.Some? && !exists row <- mid.builds :: row.revision == latest.value {
        QueueKeeps(sha, revisions, mid, latest.value);
      }
    }
  }

  lemma ScheduleKeeps(sha: Digest, revisions: seq<Revision>, b: Board, c: Closure, bases: seq<string>)
    requires BoardInv(sha, revisions, b)
    ensures var e := Schedule(revisions, b, c, bases); BoardInv(sha, revisions, e) && Progresses(b, e)
  {
    hide BoardInv, CancelStale, EnqueueAll;
    var mid := b.(builds := CancelStale(revisions, c, b.builds, b.now), now := b.now + 1);
    CancelKeeps(sha, revisions, b, c);
    EnqueueKeeps(sha, revisions, mid, bases);
  }

  lemma RebuildKeeps(sha: Digest, revisions: seq<Revision>, b: Board, base: string)
    requires BoardInv(sha, revisions, b)
    ensures var e := Rebuild(revisions, b, base); BoardInv(sha, revisions, e) && Progresses(b, e)
  {
    hide ValidArtifacts, FilesOk, LogsOk, OneActive, LatestApproved;
    var latest := LatestApproved(revisions, base);
    if Rebuild(revisions, b, base) != b {
      forall row | row in b.builds && row.revision == latest.value ensures !Active(row.state) {
        var i :| 0 <= i < |b.builds| && b.builds[i] == row;
        assert RowOk(revisions, b, i);
      }
      QueueKeeps(sha, revisions, b, latest.value);
      TimePasses(sha, revisions, b.(builds := b.builds + [NewBuild(revisions, latest.value)]), b.now + 1);
    }
  }

  lemma TimePasses(sha: Digest, revisions: seq<Revision>, b: Board, now: nat)
    requires BoardInv(sha, revisions, b)
    ensures BoardInv(sha, revisions, b.(now := now))
  {
    hide ValidArtifacts, SafeSlot, FindArtifact;
    var e := b.(now := now);
    forall i | 0 <= i < |e.builds| ensures RowOk(revisions, e, i) && FilesOk(sha, e, i) {
      assert RowOk(revisions, b, i) && FilesOk(sha, b, i);
      if i in b.directories && b.builds[i].state == Succeeded { assert Present(b, i); }
    }
  }

  lemma SweepKeeps(sha: Digest, revisions: seq<Revision>, b: Board, keep: set<nat>)
    requires BoardInv(sha, revisions, b)
    ensures BoardInv(sha, revisions, Sweep(b, keep)) && Progresses(b, Sweep(b, keep))
  {
    hide ValidArtifacts, SafeSlot, FindArtifact;
    var e := Sweep(b, keep);
    forall i | 0 <= i < |e.builds| ensures RowOk(revisions, e, i) && FilesOk(sha, e, i) {
      assert RowOk(revisions, b, i) && FilesOk(sha, b, i);
      if i in e.directories && b.builds[i].state == Succeeded { assert Present(b, i); }
    }
  }

  lemma MovesKeep(sha: Digest, before: seq<Revision>, after: seq<Revision>, b: Board)
    requires BoardInv(sha, before, b) && Moves(before, after)
    ensures BoardInv(sha, after, b)
  {
    hide ValidArtifacts, FilesOk;
    forall i | 0 <= i < |b.builds| ensures RowOk(after, b, i) {
      assert RowOk(before, b, i);
    }
  }

  // ---------------------------------------------------------------- every run

  datatype Event =
    | Decided(revisions: seq<Revision>)
    | Polled(closure: Closure, seconds: nat)
    | Reported(id: nat, report: Report)
    | Chunk(id: nat, file: string, offset: nat, body: Bytes)
    | Finished(id: nat)
    | Expiry
    | Scheduling(closure: Closure, bases: seq<string>)
    | RebuildAsked(base: string)
    | Swept(keep: set<nat>)
    | Elapsed(now: nat)

  datatype Workshop = Workshop(revisions: seq<Revision>, board: Board)

  const EMPTY_BOARD := Board([], map[], 0, [], [])

  /** Reviews go on beside the builds; the closure may be any closure at any time. */
  ghost function After(sha: Digest, w: Workshop, e: Event): Workshop {
    match e
    case Decided(revisions) => if Moves(w.revisions, revisions) then w.(revisions := revisions) else w
    case Polled(closure, seconds) => w.(board := Lease(w.revisions, w.board, closure, seconds))
    case Reported(id, report) => w.(board := TakeReport(w.revisions, w.board, id, report))
    case Chunk(id, file, offset, body) => w.(board := UploadPut(sha, w.board, id, file, offset, body))
    case Finished(id) => w.(board := Complete(w.board, id))
    case Expiry => w.(board := ExpireLeases(w.board, |w.board.builds|))
    case Scheduling(closure, bases) => w.(board := Schedule(w.revisions, w.board, closure, bases))
    case RebuildAsked(base) => w.(board := Rebuild(w.revisions, w.board, base))
    case Swept(keep) => w.(board := Sweep(w.board, keep))
    case Elapsed(now) => if now >= w.board.now then w.(board := w.board.(now := now)) else w
  }

  ghost function History(sha: Digest, events: seq<Event>): Workshop {
    if |events| == 0 then Workshop([], EMPTY_BOARD)
    else After(sha, History(sha, events[..|events| - 1]), events[|events| - 1])
  }

  lemma EventKeeps(sha: Digest, w: Workshop, e: Event)
    requires BoardInv(sha, w.revisions, w.board)
    ensures var w' := After(sha, w, e);
        BoardInv(sha, w'.revisions, w'.board) && Progresses(w.board, w'.board) && Moves(w.revisions, w'.revisions)
  {
    hide BoardInv, Lease, TakeReport, UploadPut, Complete, ExpireLeases, Schedule, Rebuild, Sweep;
    match e
    case Decided(revisions) => if Moves(w.revisions, revisions) { MovesKeep(sha, w.revisions, revisions, w.board); }
    case Polled(closure, seconds) => LeaseKeeps(sha, w.revisions, w.board, closure, seconds);
    case Reported(id, report) => ReportKeeps(sha, w.revisions, w.board, id, report);
    case Chunk(id, file, offset, body) => PutKeeps(sha, w.revisions, w.board, id, file, offset, body);
    case Finished(id) => CompleteKeeps(sha, w.revisions, w.board, id);
    case Expiry => ExpireKeeps(sha, w.revisions, w.board, |w.board.builds|);
    case Scheduling(closure, bases) => ScheduleKeeps(sha, w.revisions, w.board, closure, bases);
    case RebuildAsked(base) => RebuildKeeps(sha, w.revisions, w.board, base);
    case Swept(keep) => SweepKeeps(sha, w.revisions, w.board, keep);
    case Elapsed(now) => TimePasses(sha, w.revisions, w.board, now);
  }

  /** After any events in any order: attempts are bounded by three, every build's revision is approved, each attempt was
      leased at most once and has at most one accepted report, each revision has at most one active build, and what is
      on disk is safe. */
  lemma {:induction false} HistoryKeeps(sha: Digest, events: seq<Event>)
    ensures var w := History(sha, events); BoardInv(sha, w.revisions, w.board)
  {
    hide After;
    if |events| > 0 {
      HistoryKeeps(sha, events[..|events| - 1]);
      EventKeeps(sha, History(sha, events[..|events| - 1]), events[|events| - 1]);
    } else {
      assert History(sha, events) == Workshop([], EMPTY_BOARD);
    }
  }

  /** Succeeded and failed are absorbing over every continuation of a run. */
  lemma {:induction false} OutcomesStand(sha: Digest, events: seq<Event>, more: seq<Event>, id: nat)
    requires var w := History(sha, events); id < |w.board.builds| && !Active(w.board.builds[id].state)
    ensures id < |History(sha, events + more).board.builds|
    ensures History(sha, events + more).board.builds[id] == History(sha, events).board.builds[id]
  {
    hide After;
    if |more| == 0 {
      assert events + more == events;
    } else {
      var before := more[..|more| - 1];
      OutcomesStand(sha, events, before, id);
      assert (events + more)[..|events + more| - 1] == events + before;
      HistoryKeeps(sha, events + before);
      EventKeeps(sha, History(sha, events + before), more[|more| - 1]);
    }
  }

  /** What a lease promises: the oldest waiting build whose dependencies are ready, of an approved revision; every AUR
      package its base reaches in the graph has a usable build, and these builds are the ones recorded with it. */
  lemma LeasedBuildIsReady(sha: Digest, revisions: seq<Revision>, b: Board, c: Closure, seconds: nat) returns (i: nat)
    requires BoardInv(sha, revisions, b) && Lease(revisions, b, c, seconds).leases != b.leases
    ensures var e := ExpireLeases(b, |b.builds|);
            var after := Lease(revisions, b, c, seconds);
            && i < |after.builds| && after.leases == b.leases + [(i, after.builds[i].attempt)]
            && after.builds[i].state == Running && e.builds[i].state == Queued && Held(after, i)
            && after.builds[i].revision < |revisions| && revisions[after.builds[i].revision].state == Approved
            && (forall j | 0 <= j < i && e.builds[j].state == Queued :: !Ready(revisions, e, c, e.builds[j].base))
            && (forall d | ReachedFrom(c.graph, {after.builds[i].base}, d) && d != after.builds[i].base ::
                  var used := UsableBuild(revisions, e, d);
                  used.Some? && used.value in after.builds[i].dependencies && Present(after, used.value))
  {
    hide BoardInv, UsableBuild, ReachedFrom, ExpireLeases;
    LeaseKeeps(sha, revisions, b, c, seconds);
    ExpireKeeps(sha, revisions, b, |b.builds|);
    LeasesUntouched(b, |b.builds|);
    var e, after := ExpireLeases(b, |b.builds|), Lease(revisions, b, c, seconds);
    i := FirstReady(revisions, e, c, 0).value;
    assert RowOk(revisions, after, i) by { RowOf(sha, revisions, after, i); }
    ClosureSetIsExact(c.graph, {after.builds[i].base});
    forall d | ReachedFrom(c.graph, {after.builds[i].base}, d) && d != after.builds[i].base
      ensures var used := UsableBuild(revisions, e, d);
              used.Some? && used.value in after.builds[i].dependencies && Present(after, used.value)
    {
      assert d in Prerequisites(c, e.builds[i].base);
      PresentAfterClaim(revisions, e, c, i, seconds, UsableBuild(revisions, e, d).value);
    }
  }

  lemma RowOf(sha: Digest, revisions: seq<Revision>, b: Board, i: nat)
    requires BoardInv(sha, revisions, b) && i < |b.builds|
    ensures RowOk(revisions, b, i) && FilesOk(sha, b, i)
  {
  }

  lemma PresentAfterClaim(revisions: seq<Revision>, b: Board, c: Closure, i: nat, seconds: nat, used: nat)
    requires i < |b.builds| && b.builds[i].state == Queued && Ready(revisions, b, c, b.builds[i].base)
    requires used < |b.builds| && Present(b, used)
    ensures Present(Claim(revisions, b, c, i, seconds), used)
  {
  }

  lemma {:induction false} LeasesUntouched(b: Board, n: nat)
    requires n <= |b.builds|
    ensures ExpireLeases(b, n).leases == b.leases
  {
    hide ClassifyErrorCode;
    if n > 0 { LeasesUntouched(b, n - 1); }
  }

  /** A build becomes succeeded only by completion, and only when every artifact of its report is stored with the
      declared size and digest. */
  lemma SucceedsOnlyWhenStored(sha: Digest, w: Workshop, e: Event, i: nat)
    requires BoardInv(sha, w.revisions, w.board)
    requires var after := After(sha, w, e).board; i < |after.builds| && after.builds[i].state == Succeeded
    requires i < |w.board.builds| ==> w.board.builds[i].state != Succeeded
    ensures e == Finished(i) && i < |w.board.builds| && w.board.builds[i].state == Uploading && i in w.board.directories
    ensures forall a <- After(sha, w, e).board.builds[i].artifacts ::
              && a in w.board.builds[i].artifacts
              && var stored := SlotOf(w.board, i, a.file).stored;
                  stored.Some? && |stored.value| == a.size && sha(stored.value) == a.sha256
  {
    hide BoardInv, Lease, TakeReport, UploadPut, ExpireLeases, Schedule, Rebuild, Sweep, LatestApproved;
    var after := After(sha, w, e).board;
    if i < |w.board.builds| { RowOf(sha, w.revisions, w.board, i); }
    match e
    case Finished(id) => StoredAreSafe(sha, w.revisions, w.board, i);
    case Polled(closure, seconds) => LeaseSucceedsNone(w.revisions, w.board, closure, seconds, i);
    case Reported(id, report) => ReportSucceedsNone(w.revisions, w.board, id, report, i);
    case Chunk(id, file, offset, body) => PutBuilds(sha, w.board, id, file, offset, body);
    case Expiry => ExpirySucceedsNone(w.board, |w.board.builds|, i);
    case Scheduling(closure, bases) => ScheduleSucceedsNone(w.revisions, w.board, closure, bases, i);
    case RebuildAsked(base) => RebuildSucceedsNone(w.revisions, w.board, base, i);
    case Swept(keep) => SweepBuilds(w.board, keep);
    case Decided(_) =>
    case Elapsed(_) =>
  }

  ghost predicate SucceedsNone(before: seq<Build>, after: seq<Build>, i: nat) {
    i < |after| && after[i].state == Succeeded ==> i < |before| && before[i].state == Succeeded
  }

  lemma StoredAreSafe(sha: Digest, revisions: seq<Revision>, b: Board, i: nat)
    requires i < |b.builds| && RowOk(revisions, b, i) && FilesOk(sha, b, i) && b.builds[i].state == Uploading
    ensures forall a <- b.builds[i].artifacts :: var stored := SlotOf(b, i, a.file).stored;
              stored.Some? ==> |stored.value| == a.size && sha(stored.value) == a.sha256
  {
    hide RowOk, FilesOk;
    forall a <- b.builds[i].artifacts ensures var stored := SlotOf(b, i, a.file).stored;
              stored.Some? ==> |stored.value| == a.size && sha(stored.value) == a.sha256
    {
      if SlotOf(b, i, a.file).stored.Some? { StoredIsSafe(sha, revisions, b, i, a); }
    }
  }

  lemma StoredIsSafe(sha: Digest, revisions: seq<Revision>, b: Board, i: nat, a: ArtifactRecord)
    requires i < |b.builds| && RowOk(revisions, b, i) && FilesOk(sha, b, i)
    requires (b.builds[i].state == Uploading || b.builds[i].state == Succeeded) && a in b.builds[i].artifacts
    requires SlotOf(b, i, a.file).stored.Some?
    ensures var stored := SlotOf(b, i, a.file).stored.value; |stored| == a.size && sha(stored) == a.sha256
  {
    hide FindArtifact, Present;
    FilesApart(revisions, b, i);
    hide ValidArtifacts;
    OneOfEachFile(b.builds[i].artifacts, FindArtifact(b.builds[i].artifacts, a.file).value, a);
  }

  lemma FilesApart(revisions: seq<Revision>, b: Board, i: nat)
    requires i < |b.builds| && RowOk(revisions, b, i)
        && (b.builds[i].state == Uploading || b.builds[i].state == Succeeded)
    ensures DistinctFiles(b.builds[i].artifacts)
  {
  }

  lemma OneOfEachFile(artifacts: seq<ArtifactRecord>, a: ArtifactRecord, b: ArtifactRecord)
    requires DistinctFiles(artifacts) && a in artifacts && b in artifacts && a.file == b.file
    ensures a == b
  {
  }

  lemma {:induction false} ExpirySucceedsNone(b: Board, n: nat, i: nat)
    requires n <= |b.builds|
    ensures SucceedsNone(b.builds, ExpireLeases(b, n).builds, i)
  {
    hide ClassifyErrorCode;
    if n > 0 { ExpirySucceedsNone(b, n - 1, i); }
  }

  lemma LeaseSucceedsNone(revisions: seq<Revision>, b: Board, c: Closure, seconds: nat, i: nat)
    ensures SucceedsNone(b.builds, Lease(revisions, b, c, seconds).builds, i)
  {
    hide ExpireLeases, Ready;
    ExpirySucceedsNone(b, |b.builds|, i);
  }

  lemma ReportSucceedsNone(revisions: seq<Revision>, b: Board, id: nat, r: Report, i: nat)
    ensures SucceedsNone(b.builds, TakeReport(revisions, b, id, r).builds, i)
  {
    hide ValidArtifacts, ClassifyErrorCode;
  }

  lemma PutBuilds(sha: Digest, b: Board, id: nat, file: string, offset: nat, body: Bytes)
    ensures UploadPut(sha, b, id, file, offset, body).builds == b.builds
  {
  }

  lemma SweepBuilds(b: Board, keep: set<nat>)
    ensures Sweep(b, keep).builds == b.builds
  {
  }

  lemma {:induction false} EnqueueSucceedsNone(revisions: seq<Revision>, builds: seq<Build>, bases: seq<string>, i: nat)
    ensures SucceedsNone(builds, EnqueueAll(revisions, builds, bases), i)
  {
    if |bases| > 0 { EnqueueSucceedsNone(revisions, builds, bases[..|bases| - 1], i); }
  }

  lemma ScheduleSucceedsNone(revisions: seq<Revision>, b: Board, c: Closure, bases: seq<string>, i: nat)
    ensures SucceedsNone(b.builds, Schedule(revisions, b, c, bases).builds, i)
  {
    EnqueueSucceedsNone(revisions, CancelStale(revisions, c, b.builds, b.now), bases, i);
  }

  lemma RebuildSucceedsNone(revisions: seq<Revision>, b: Board, base: string, i: nat)
    ensures SucceedsNone(b.builds, Rebuild(revisions, b, base).builds, i)
  {
  }

  // ---------------------------------------------------------------- scheduling settles

  /** Nothing queued is stale, and every package has a build of its latest approved revision. */
  ghost predicate Scheduled(revisions: seq<Revision>, c: Closure, bases: seq<string>, builds: seq<Build>) {
    && (forall row <- builds :: Stale(revisions, c, row).None?)
    && forall base <- bases :: var latest := LatestApproved(revisions, base);
         latest.Some? ==> exists row <- builds :: row.revision == latest.value
  }

  lemma {:induction false} EnqueuedRows(revisions: seq<Revision>, c: Closure, builds: seq<Build>, bases: seq<string>)
    requires (forall base <- bases :: base in c.members) && forall row <- builds :: Stale(revisions, c, row).None?
    ensures builds <= EnqueueAll(revisions, builds, bases)
        && Scheduled(revisions, c, bases, EnqueueAll(revisions, builds, bases))
  {
    hide LatestApproved;
    if |bases| > 0 {
      var before, base := bases[..|bases| - 1], bases[|bases| - 1];
      EnqueuedRows(revisions, c, builds, before);
      var mid, all := EnqueueAll(revisions, builds, before), EnqueueAll(revisions, builds, bases);
      assert mid <= all;
      forall row <- mid ensures row in all {}
      var latest := LatestApproved(revisions, base);
      if latest.Some? && all != mid { assert all[|mid|].revision == latest.value; }
    }
  }

  lemma {:induction false} NothingToEnqueue(revisions: seq<Revision>, c: Closure, builds: seq<Build>,
      bases: seq<string>)
    requires Scheduled(revisions, c, bases, builds)
    ensures EnqueueAll(revisions, builds, bases) == builds
  {
    if |bases| > 0 { NothingToEnqueue(revisions, c, builds, bases[..|bases| - 1]); }
  }

  /** Scheduling settles at once: a second scheduling against the same closure changes no build. */
  lemma ScheduleSettles(revisions: seq<Revision>, b: Board, c: Closure, bases: seq<string>)
    requires forall base <- bases :: base in c.members
    ensures Scheduled(revisions, c, bases, Schedule(revisions, b, c, bases).builds)
    ensures Scheduled(revisions, c, bases, b.builds) <==> Schedule(revisions, b, c, bases).builds == b.builds
  {
    hide EnqueueAll, LatestApproved;
    var cancelled := CancelStale(revisions, c, b.builds, b.now);
    forall row <- cancelled ensures Stale(revisions, c, row).None? {
      var i :| 0 <= i < |cancelled| && cancelled[i] == row;
      assert row == Cancelled(revisions, c, b.builds[i], b.now);
    }
    EnqueuedRows(revisions, c, cancelled, bases);
    if Scheduled(revisions, c, bases, b.builds) {
      assert cancelled == b.builds;
      NothingToEnqueue(revisions, c, b.builds, bases);
    }
  }

  // ---------------------------------------------------------------- the handlers

  class BuildTable {
    const sha: Digest
    var builds: seq<Build>
    var directories: map<nat, map<string, Slot>>
    var now: nat
    ghost var leases: seq<(nat, nat)>
    ghost var reports: seq<(nat, nat)>

    ghost function Value(): Board
      reads this
    {
      Board(builds, directories, now, leases, reports)
    }

    constructor (sha: Digest)
      ensures this.sha == sha && Value() == EMPTY_BOARD
    {
      this.sha, builds, directories, now, leases, reports := sha, [], map[], 0, [], [];
    }

    method IsStored(id: nat, file: string) returns (stored: bool)
      ensures stored == SlotOf(Value(), id, file).stored.Some?
    {
      stored := id in directories && file in directories[id] && directories[id][file].stored.Some?;
    }

    method AllStored(id: nat) returns (stored: bool)
      requires id < |builds|
      ensures stored <==> forall a <- builds[id].artifacts :: SlotOf(Value(), id, a.file).stored.Some?
    {
      var artifacts := builds[id].artifacts;
      for i := 0 to |artifacts|
        invariant forall a <- artifacts[..i] :: SlotOf(Value(), id, a.file).stored.Some?
      {
        stored := IsStored(id, artifacts[i].file);
        if !stored { return; }
      }
      stored := true;
    }

    /** One pass of the query's ordering: the best candidate not looked at yet. */
    method NextCandidate(latest: Option<nat>, base: string, seen: set<nat>) returns (best: Option<nat>)
      ensures best == Best(Value(), latest, base, seen, |builds|)
    {
      hide Before, Candidate;
      best := None;
      for i := 0 to |builds|
        invariant best == Best(Value(), latest, base, seen, i)
      {
        if IsCandidate(base, i) && i !in seen && (best.None? || ComesBefore(latest, i, best.value)) {
          best := Some(i);
        }
      }
    }

    predicate IsCandidate(base: string, id: nat)
      reads this
      ensures IsCandidate(base, id) <==> Candidate(Value(), base, id)
    {
      id < |builds| && builds[id].base == base && builds[id].state == Succeeded
    }

    predicate ComesBefore(latest: Option<nat>, x: nat, y: nat)
      requires x < |builds| && y < |builds|
      reads this
      ensures ComesBefore(latest, x, y) <==> Before(Value(), latest, x, y)
    {
      var cx, cy := Some(builds[x].revision) == latest, Some(builds[y].revision) == latest;
      var fx := if builds[x].finishedAt.Some? then builds[x].finishedAt.value else 0;
      var fy := if builds[y].finishedAt.Some? then builds[y].finishedAt.value else 0;
      if cx != cy then cx else fx > fy
    }

    /** The usable build of a package: at most five candidates are looked at, best first. */
    method FindUsable(revisions: seq<Revision>, base: string) returns (found: Option<nat>)
      ensures found == UsableBuild(revisions, Value(), base)
    {
      hide LatestApproved, Best;
      var latest := LatestApproved(revisions, base);
      var seen: set<nat> := {};
      var left := LOOK_AT;
      while left > 0
        invariant UsableBuild(revisions, Value(), base) == UsableAmong(Value(), latest, base, seen, left)
      {
        var best := NextCandidate(latest, base, seen);
        if best.None? { return None; }
        var stored := AllStored(best.value);
        if builds[best.value].artifacts != [] && stored { return best; }
        seen := seen + {best.value};
        left := left - 1;
      }
      found := None;
    }

    /** The builds to install before building a package, or none while it has to wait. */
    method FindDependencies(revisions: seq<Revision>, c: Closure, base: string) returns (found: Option<set<nat>>)
      ensures found.Some? <==> Ready(revisions, Value(), c, base)
      ensures found.Some? ==> found.value == DependencyBuilds(revisions, Value(), c, base)
    {
      hide UsableBuild, ReachedFrom;
      if base in c.unresolved { return None; }
      var graph := new DependencyGraph.FromEdges(c.graph);
      var reached := graph.Closure([base]);
      ClosureSetIsExact(c.graph, {base});
      assert Elements([base]) == {base};
      assert reached == ClosureSet(c.graph, {base});
      var list := ListSet(reached);
      var result: set<nat> := {};
      for i := 0 to |list|
        invariant forall d <- list[..i] ::
            d != base ==> UsableBuild(revisions, Value(), d).Some? && UsableBuild(revisions, Value(), d).value in result
        invariant forall r <- result :: exists d ::
            d in list[..i] && d != base && UsableBuild(revisions, Value(), d) == Some(r)
      {
        assert list[..i + 1] == list[..i] + [list[i]];
        if list[i] == base { continue; }
        var used := FindUsable(revisions, list[i]);
        if used.None? {
          assert list[i] in Prerequisites(c, base);
          return None;
        }
        ghost var before := result;
        result := result + {used.value};
        forall r <- result
            ensures exists d :: d in list[..i + 1] && d != base && UsableBuild(revisions, Value(), d) == Some(r) {
          if r in before {
            var d :| d in list[..i] && d != base && UsableBuild(revisions, Value(), d) == Some(r);
            assert d in list[..i + 1];
          } else {
            assert list[i] in list[..i + 1];
          }
        }
      }
      assert list[..|list|] == list;
      assert result == DependencyBuilds(revisions, Value(), c, base);
      found := Some(result);
    }

    method Fail(id: nat, code: string)
      requires id < |builds|
      modifies this
      ensures Value() == FailBuild(old(Value()), id, code) && |builds| == |old(builds)|
    {
      var row := builds[id];
      if ClassifyErrorCode(code) == Transient && row.attempt <= MAXIMUM_TRANSIENT_RETRIES {
        builds := builds[id := row.(state := Queued, attempt := row.attempt + 1, leaseExpires := None,
            errorCode := Some(code), artifacts := [])];
      } else {
        builds := builds[id := row.(state := Failed, leaseExpires := None, errorCode := Some(code),
            finishedAt := Some(now))];
      }
      if id in directories { directories := directories - {id}; }
      assert directories == old(directories) - {id};
      now := now + 1;
    }

    method Expire()
      modifies this
      ensures Value() == ExpireLeases(old(Value()), |old(builds)|)
    {
      hide FailBuild;
      ghost var start := Value();
      var rows, cutoff := builds, now;
      for i := 0 to |rows|
        invariant |builds| == |rows| && Value() == ExpireLeases(start, i)
      {
        var row := rows[i];
        if (row.state == Running || row.state == Uploading) && row.leaseExpires.Some?
            && row.leaseExpires.value < cutoff {
          Fail(i, "LEASE_EXPIRED");
        }
      }
    }

    /** Hand out the oldest queued build whose dependencies are ready. */
    method LeaseNext(revisions: seq<Revision>, c: Closure, seconds: nat) returns (leased: Option<nat>)
      modifies this
      ensures Value() == Lease(revisions, old(Value()), c, seconds)
      ensures leased == FirstReady(revisions, ExpireLeases(old(Value()), |old(builds)|), c, 0)
      ensures BoardInv(sha, revisions, old(Value())) ==> BoardInv(sha, revisions, Value())
    {
      hide BoardInv, Ready, DependencyBuilds, ExpireLeases;
      ghost var start := Value();
      Expire();
      ghost var expired := Value();
      for i := 0 to |builds|
        invariant Value() == expired && FirstReady(revisions, expired, c, 0) == FirstReady(revisions, expired, c, i)
      {
        var row := builds[i];
        if row.state == Queued {
          var dependencies := FindDependencies(revisions, c, row.base);
          if dependencies.Some? {
            builds := builds[i := row.(state := Running, leaseExpires := Some(now + Clamp(seconds)),
                                       dependencies := dependencies.value, errorCode := None)];
            leases := leases + [(i, row.attempt)];
            now := now + 1;
            if BoardInv(sha, revisions, start) { LeaseKeeps(sha, revisions, start, c, seconds); }
            return Some(i);
          }
        }
      }
      leased := None;
      if BoardInv(sha, revisions, start) { LeaseKeeps(sha, revisions, start, c, seconds); }
    }

    predicate IsHeld(id: nat)
      reads this
      ensures IsHeld(id) <==> Held(Value(), id)
    {
      && id < |builds| && (builds[id].state == Running || builds[id].state == Uploading)
      && builds[id].leaseExpires.Some? && builds[id].leaseExpires.value > now
    }

    method Report(revisions: seq<Revision>, id: nat, r: Report) returns (accepted: bool)
      modifies this
      ensures Value() == TakeReport(revisions, old(Value()), id, r)
      ensures accepted <==> Value() != old(Value())
      ensures BoardInv(sha, revisions, old(Value())) ==> BoardInv(sha, revisions, Value())
    {
      hide BoardInv, ValidArtifacts;
      ghost var start := Value();
      if BoardInv(sha, revisions, start) { ReportKeeps(sha, revisions, start, id, r); }
      if !IsHeld(id) || builds[id].attempt != r.attempt || builds[id].state != Running
          || builds[id].revision >= |revisions| { return false; }
      accepted := true;
      if !r.succeeded {
        Fail(id, if 0 < |r.code| <= 64 then r.code else "BUILD_FAILED");
      } else {
        var valid := ValidateArtifacts(r.artifacts, revisions[builds[id].revision].outputs);
        if !r.wellNamed || !valid {
          Fail(id, "OUTPUT_MISMATCH");
        } else {
          builds := builds[id := builds[id].(state := Uploading, artifacts := r.artifacts)];
          if id !in directories { directories := directories[id := map[]]; }
          assert directories == start.directories[id := if id in start.directories then start.directories[id]
              else map[]];
          now := now + 1;
        }
      }
      reports := reports + [(id, r.attempt)];
    }

    /** Append a chunk; there is a reply when the builder may upload that file. */
    method Upload(revisions: seq<Revision>, id: nat, file: string, offset: nat, body: Bytes)
        returns (reply: Option<PutReply>)
      modifies this
      ensures Value() == UploadPut(sha, old(Value()), id, file, offset, body)
      ensures reply == UploadReply(sha, old(Value()), id, file, offset, body)
      ensures BoardInv(sha, revisions, old(Value())) ==> BoardInv(sha, revisions, Value())
    {
      hide BoardInv;
      ghost var start := Value();
      if BoardInv(sha, revisions, start) { PutKeeps(sha, revisions, start, id, file, offset, body); }
      if !IsHeld(id) || builds[id].state != Uploading || id !in directories { return None; }
      var a := FindArtifact(builds[id].artifacts, file);
      if a.None? { return None; }
      var slot := if file in directories[id] then directories[id][file] else EMPTY_SLOT;
      var (after, answer) := Put(sha, slot, a.value, offset, body);
      directories := directories[id := directories[id][file := after]];
      reply := Some(answer);
    }

    /** Remove the directories outside `keep` whose builds are not in progress. */
    method RemoveOthers(keep: set<nat>) returns (removed: nat)
      modifies `directories
      ensures Value() == Sweep(old(Value()), keep)
    {
      ghost var start := Value();
      removed := 0;
      var rest := directories.Keys;
      while rest != {}
        invariant rest <= start.directories.Keys
        invariant forall id :: id in directories <==>
                    id in start.directories && (id in rest || id in keep || InProgress(start, id))
        invariant forall id <- directories :: directories[id] == start.directories[id]
      {
        var id :| id in rest;
        rest := rest - {id};
        var progressing := id < |builds| && (builds[id].state == Running || builds[id].state == Uploading);
        if id !in keep && !progressing {
          directories := directories - {id};
          removed := removed + 1;
        }
      }
      assert directories == Sweep(start, keep).directories;
    }

    method CompleteBuild(revisions: seq<Revision>, id: nat) returns (completed: bool)
      modifies this
      ensures Value() == Complete(old(Value()), id)
      ensures completed <==> Value() != old(Value())
      ensures BoardInv(sha, revisions, old(Value())) ==> BoardInv(sha, revisions, Value())
    {
      hide BoardInv;
      ghost var start := Value();
      if BoardInv(sha, revisions, start) { CompleteKeeps(sha, revisions, start, id); }
      if !IsHeld(id) || builds[id].state != Uploading { return false; }
      var stored := AllStored(id);
      if !stored { return false; }
      builds := builds[id := builds[id].(state := Succeeded, leaseExpires := None, finishedAt := Some(now))];
      now := now + 1;
      completed := true;
    }

    /** Cancel queued builds that are not wanted any more. */
    method CancelQueued(revisions: seq<Revision>, c: Closure)
      modifies `builds
      ensures builds == CancelStale(revisions, c, old(builds), now)
    {
      hide LatestApproved, CancelStale;
      var rows := builds;
      for i := 0 to |rows|
        invariant |builds| == |rows| && forall j :: 0 <= j < |rows| ==> builds[j] == if j < i
            then Cancelled(revisions, c, rows[j], now) else rows[j]
      {
        var row := rows[i];
        if row.state == Queued {
          var latest := LatestApproved(revisions, row.base);
          if row.base !in c.members {
            builds := builds[i := row.(state := Failed, errorCode := Some("NOT_REQUIRED"), finishedAt := Some(now))];
          } else if latest != Some(row.revision) {
            builds := builds[i := row.(state := Failed, errorCode := Some("SUPERSEDED"), finishedAt := Some(now))];
          }
        }
      }
      assert builds == CancelStale(revisions, c, rows, now);
    }

    /** Queue the latest approved revision of every listed package that has no build yet. */
    method QueueMissing(revisions: seq<Revision>, bases: seq<string>)
      modifies `builds
      ensures builds == EnqueueAll(revisions, old(builds), bases)
    {
      hide LatestApproved;
      for i := 0 to |bases|
        invariant builds == EnqueueAll(revisions, old(builds), bases[..i])
      {
        assert bases[..i + 1][..i] == bases[..i];
        var latest := LatestApproved(revisions, bases[i]);
        if latest.Some? {
          var existing := CountOf(latest.value);
          if existing == 0 { builds := builds + [NewBuild(revisions, latest.value)]; }
        }
      }
      assert bases[..|bases|] == bases;
    }

    method ScheduleBuilds(revisions: seq<Revision>, c: Closure) returns (bases: seq<string>)
      modifies this
      ensures Elements(bases) == c.members
      ensures Value() == Schedule(revisions, old(Value()), c, bases)
      ensures BoardInv(sha, revisions, old(Value())) ==> BoardInv(sha, revisions, Value())
    {
      hide BoardInv, CancelStale, EnqueueAll;
      ghost var start := Value();
      CancelQueued(revisions, c);
      bases := ListSet(c.members);
      QueueMissing(revisions, bases);
      now := now + 1;
      if BoardInv(sha, revisions, start) { ScheduleKeeps(sha, revisions, start, c, bases); }
    }

    method CountOf(revision: nat) returns (count: nat)
      ensures count == 0 <==> !exists row <- builds :: row.revision == revision
    {
      count := 0;
      for i := 0 to |builds|
        invariant count == 0 <==> forall row <- builds[..i] :: row.revision != revision
      {
        assert builds[..i + 1] == builds[..i] + [builds[i]];
        if builds[i].revision == revision { count := count + 1; }
      }
    }

    method RebuildPackage(revisions: seq<Revision>, base: string) returns (queued: bool)
      modifies this
      ensures Value() == Rebuild(revisions, old(Value()), base)
      ensures queued <==> Value() != old(Value())
      ensures BoardInv(sha, revisions, old(Value())) ==> BoardInv(sha, revisions, Value())
    {
      hide BoardInv, LatestApproved;
      ghost var start := Value();
      if BoardInv(sha, revisions, start) { RebuildKeeps(sha, revisions, start, base); }
      var latest := LatestApproved(revisions, base);
      if latest.None? { return false; }
      for i := 0 to |builds|
        invariant forall row <- builds[..i] :: !(row.base == base && Active(row.state))
      {
        if builds[i].base == base && Active(builds[i].state) { return false; }
      }
      builds := builds + [NewBuild(revisions, latest.value)];
      now := now + 1;
      queued := true;
    }
  }

  /** The builder's artifact list against the outputs the recipe declares. */
  method ValidateArtifacts(artifacts: seq<ArtifactRecord>, outputs: seq<string>) returns (valid: bool)
    ensures valid <==> ValidArtifacts(artifacts, outputs)
  {
    if |artifacts| == 0 || |artifacts| > 64 { return false; }
    var files: set<string>, names: set<string> := {}, {};
    var version := artifacts[0].packageVersion;
    for i := 0 to |artifacts|
      invariant files == FilesOf(artifacts[..i]) && names == NamesOf(artifacts[..i])
      invariant DistinctFiles(artifacts[..i]) && DistinctNames(artifacts[..i])
      invariant forall a <- artifacts[..i] :: Fitting(a, version)
    {
      hide Fitting, FilesOf, NamesOf, DistinctFiles, DistinctNames;
      var a := artifacts[i];
      assert artifacts[..i + 1] == artifacts[..i] + [a] && a in artifacts;
      if !Fitting(a, version) { return false; }
      OneMore(artifacts[..i], a);
      if a.file in files || a.packageName in names {
        RepeatedArtifact(artifacts, i);
        return false;
      }
      files, names := files + {a.file}, names + {a.packageName};
    }
    assert artifacts[..|artifacts|] == artifacts;
    var expected := set name | name in outputs;
    assert forall name :: name in expected <==> name in outputs;
    valid := names == expected;
    assert names == NamesOf(artifacts);
  }

  ghost function FilesOf(artifacts: seq<ArtifactRecord>): set<string> {
    set a | a in artifacts :: a.file
  }

  ghost function NamesOf(artifacts: seq<ArtifactRecord>): set<string> {
    set a | a in artifacts :: a.packageName
  }

  lemma OneMore(artifacts: seq<ArtifactRecord>, a: ArtifactRecord)
    ensures FilesOf(artifacts + [a]) == FilesOf(artifacts) + {a.file}
        && NamesOf(artifacts + [a]) == NamesOf(artifacts) + {a.packageName}
    ensures DistinctFiles(artifacts) && a.file !in FilesOf(artifacts) ==> DistinctFiles(artifacts + [a])
    ensures DistinctNames(artifacts) && a.packageName !in NamesOf(artifacts) ==> DistinctNames(artifacts + [a])
  {
  }

  lemma RepeatedArtifact(artifacts: seq<ArtifactRecord>, i: nat)
    requires i < |artifacts|
        && (artifacts[i].file in FilesOf(artifacts[..i]) || artifacts[i].packageName in NamesOf(artifacts[..i]))
    ensures !(DistinctFiles(artifacts) && DistinctNames(artifacts))
  {
    var b :| b in artifacts[..i] && (b.file == artifacts[i].file || b.packageName == artifacts[i].packageName);
    var j :| 0 <= j < i && artifacts[..i][j] == b;
    assert artifacts[j] == b;
  }
}
