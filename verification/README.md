# AURsmith: a verified model

AURsmith is a private binary package repository that is driven by desired state. A server follows packages of the AUR, has
each change of a recipe reviewed, leases builds to a builder at home, receives the built packages, and asks a signer to
publish them. The signer owns the signing key and the directory that clients download from. No component trusts that another
one is up: plans, results, uploads and release directories survive restarts, and every loop tries again.

This project models that behaviour in Dafny and proves what it is for:

- **Nothing a client can download is ever half there**, as long as a file name stands for one content. Every file-system call of
  the signer is one step. After any prefix of any run of publish, activate, prune and rollback, over any history of such cut runs, each link that is set names a release
  with its six files, and every package of its manifest is in place with the planned bytes and a valid signature
  (`CrashSafety.HistoryIsSafe`).
- **A crashed publish can be repeated.** The retry ends with the links, releases, packages and signatures of an uninterrupted run,
  but for garbage that no current or previous release needs, exactly when the first try could tell the release that was current
  (`Convergence.RetrySameExactly`); the next complete pruning removes the garbage (`Convergence.GarbageGoes`).
- **Everything installable has its provenance.** In every reachable state of reviews, builds, rebuilds, uploads, reconciling, signing
  and rollbacks together, with no hypothesis on the events, each package of a linked release is a record of a succeeded build of an
  approved revision, one of its declared outputs. That approval goes back, through equal trees of the same package, to one given
  by a human or by the agents, and a human approved a revision of the package (`Installation.ProvenanceOfEverything`).
- **Every release was whole when it was committed.** Whatever was published and handed over before, at the call that commits a
  release each of its packages is in place with the recorded digest and size under a valid signature, if only no package bears the
  keyring's file name (`Installation.EveryReleaseWasWhole`). It stays so under every link as long as a file name stands for one
  content among what is planned (`Pipeline.BytesOfEverything`).
- **Handing over only new files is enough, exactly as long as failures are harmless.** The signer, cut or failing at any call of
  any turn, finds every artifact of the plan it works on (`Pipeline.NothingIsMissing`), provided that results are collected in
  time and that a failure is answered only where it does no harm. Where it does none is decided by the links before the turn
  (`Exchange.FailureKeepsExactly`); plans that are only written while the newest released plan is the current release leave no
  condition on the signer's answers at all (`Exchange.CarefulKeeps`, `Pipeline.CarefulRunsAreTimely`).
- **The loop ends with the desired plan.** When nothing else happens and the signer succeeds, three rounds make the desired plan the
  newest released one and the current release, and keep it so, whatever file names stand for (`Reconciling.ReconcileConverges`).
  The signer's success follows where names fix contents (`Reconciling.NamedReconcileConverges`); and without that, with nothing
  pending and the newest released plan served, two rounds publish and serve also a plan of rebuilds that replace published files of
  the same names (`Reconciling.RebuildConverges`).
- **The desired plan is the best one.** It publishes the greatest set of packages closed under dependencies
  (`Planning.PublishedIsGreatest`), of each the build on disk to which no other is preferred (`Selection.PlanTakesPreferred`), and
  deleting old files never changes it (`Planning.CleaningIsInvisible`). The signer accepts it exactly when its fields are in order
  (`Committing.AcceptedExactly`, `Installation.DesiredIsAcceptable`).
- **Agents approve by the 2+1 rule.** After every run an approval that no human gave and that reuses no review has two approving
  low agents or an approving high one behind it, and the latter wherever a low one did not approve
  (`Review.AgentApprovalsHaveRows`).

The modules follow the program. `Protocol` holds the shared records; `Store` the rows of the server's tables; `Order` comparing and
sorting; `Graph` and `Closure` the dependency graph and the closure of the subscriptions; `Review` the review state machine;
`Upload`, `Builds` and `Delivery` the build protocol on both sides; `Planning`, `Exchange`, `Reconciling` and `Publishing` the desired
state and its publication; `Lifecycle`, `Selection` and `Rounds` say of the rows of the tables, and of nothing else, what the
handlers decide; `Repository`, `CrashSafety`, `Convergence`, `Signer` and `Committing` the signer; `Hazards` the runs in which a
promise fails; `Installation` all of it composed, with no hypothesis; `Pipeline` the same under the hypothesis on file names;
`Schedule` the check times; `StateImport` the state transfer.

Code that changes state is a class whose methods are proved against functions on values (`BuildTable.Value()`,
`ReviewDesk.Value()`, the signer's `disk`), and the theorems are about those functions, for all inputs and over all runs. The
signer's methods are different: each issues its calls one at a time through `Signer.Do`, which may be interrupted before any call,
and is proved to have issued a prefix of the script that the theorems are about - the whole script of the publish when it
succeeds. A pass over the inbox is proved to be a list of such turns, and the turns to be the signer's events of the exchange
(`Signer.Signer.ProcessInbox`, `Exchange.InboxPassIsRun`).

## How the program is modelled

- A table is the sequence of its rows in insertion order, and a row's position is its id. Creation times are distinct and only
  grow, so "newest" is "last". Each HTTP handler, each collection of results, each reconciling round and each clean-up is one
  atomic step; a review is two, because the agents read while other things happen.
- SHA-256 of uploads is an uninterpreted function. A plan's id stands for the plan, so the plan digest is injective.
- "A file name determines its content" is the hypothesis `Book` (a function from names to contents). A rebuild under the same name
  overwrites the published file, and activation checks size and signature only, so what clients can download at all times rests on
  it; provenance, the shape of releases, what a commit finds, pruning, rollback and the convergence of the loop do not. For whole runs it is `NamesFixPlan`: whenever a plan is
  written, what is stored and handed over for its records is what their names stand for; other uploads may be anything. That
  nothing is missing needs two more: results in time and failures only where they are harmless (`RunsTimely`), and that one digest
  is not planned under two file names (`DigestsNameFiles`).
- gpg, repo-add, makepkg, Docker, Git, the AUR and the review agents are outside: a signature names what it covers, and verdicts,
  reports, package metadata and directory listings are arbitrary values.

## What turned out differently from what one might expect

- A failed publish can lose the newest released plan. After a rollback, or after a publish that was committed and then answered as
  failed, the newest released plan is no longer the current release. If the next plan is then committed and pruned, the answer is
  lost, and the retry meets any error, the server takes the older plan for what the signer holds, but its packages are gone:
  a later plan is handed over without them (`Hazards.FailureLosesRelease`; `Exchange.FailureKeepsExactly` says exactly when).
- Other bytes under a published file name can break the release that is served: if the machine stops between the rename
  of the package and that of its signature, the package no longer fits its signature, and every retry of the plan takes the package
  for reusable and fails at that very signature (`Hazards.RebuiltNameTears`). A publish spares a served release at every call
  before the pruning exactly when what is published under the names both use is what the plan wants
  (`Hazards.RenamesSpareExactly`).
- Without the link `releases/current` a crash right after the database link was swapped makes a retried publish forget which release was
  current before (`Convergence.RetryLosesPrevious`); the first publish of a repository can crash like that,
  and the next one then end with other links (`Hazards.FirstPublishForgets`).
- Rolling back twice restores all links exactly when they agreed (`Convergence.RollbackTwice`), and a crash in a publish can leave links that
  do not agree (`Hazards.CutPublishUnsettles`).
- What an interrupted pruning left of an old release stands in the way when the same plan is wanted again: the signer succeeds exactly when
  the release is whole or its place is empty (`Exchange.PublishSucceedsExactly`), and there is a run in which it is neither
  (`Hazards.InterruptedPruneBlocks`).
- A finished build whose acknowledged report left no marker is thrown away although the server waits for its upload: the second report is
  refused and the job directory goes (`Delivery.LostMarkerDiscards`, `Delivery.Job.DeliverWithRetries`). The lease then expires and
  the build is tried again.
- The time of a next check that no date can hold is meant to be replaced by one period from now; that sum is never a date either, so
  the replacement stops the program instead (`Schedule.NextCheckExists`).
- An import that fails inside its transaction leaves the connection with reference checks switched off (`StateImport.Database.Import`).
- The comment in `crates/aursmith-core/src/graph.rs:52` promises name order inside a layer of the topological order; the code orders by depth only, and so
  does the model.

## Model

| member | source | states |
|---|---|---|
| Graph.DependencyGraph.AddPackage | crates/aursmith-core/src/graph.rs:19-21 | adding a package keeps what it depends on already, and well-formedness |
| Graph.DependencyGraph.AddDependency | crates/aursmith-core/src/graph.rs:23-39 | exactly one edge is added, none from a package to itself, and both ends become nodes |
| Graph.DependencyGraph.TopologicalOrder | crates/aursmith-core/src/graph.rs:53-77 | succeeds with a duplicate-free permutation of the nodes, dependencies first and depth never falling; fails exactly with the set of nodes from which a cycle is reachable |
| Graph.CycleIsUnbounded | crates/aursmith-core/src/graph.rs:53-77 | a node reaches a cycle exactly when its dependency walks are unboundedly long, which is why it is never emitted |
| Graph.DependencyGraph.Closure | crates/aursmith-core/src/graph.rs:80-94 | the search returns exactly the nodes some root reaches |
| Graph.ClosedHoldsReached | crates/aursmith-core/src/graph.rs:80-94 | reachability is the least set closed under dependencies above the roots |
| Store.LatestApproved | crates/aursmithd/src/builds.rs:133-136 | the newest approved revision of a package, and none when there is none |
| Closure.Catalog.ComputeClosure | crates/aursmithd/src/packages.rs:78-145 | ends with at most 257 members, all needed; with at most 256 the members are exactly what the subscriptions reach, the graph has exactly their edges and `requiredBy` is its inverse |
| Closure.Catalog.Follow | crates/aursmithd/src/packages.rs:113-142 | one package adds exactly its resolved and chosen targets, queues those not seen, and lists its open choices |
| Closure.ClosureEdges | crates/aursmithd/src/packages.rs:60-142 | what a member's dependency leads to, resolved in the AUR or chosen for it, is its edge and a member; every edge comes from such a dependency of its newest approved revision, or without one its newest under review; the open choices listed are exactly its own |
| Closure.TargetsLead | crates/aursmithd/src/packages.rs:113-142 | the targets of a dependency list are exactly the other packages its dependencies lead to |
| Closure.UnknownHasNoEdges | crates/aursmithd/src/packages.rs:109-111 | a member without a revision has no edges and no open choices |
| Closure.MembersAreClosed | crates/aursmithd/src/packages.rs:78-145 | whatever a member depends on, directly or not, is a member |
| Closure.Catalog.Unsubscribe | crates/aursmithd/src/packages.rs:684-707 | removes exactly the packages reachable from that subscription and from no other |
| Closure.RemovedExactly | crates/aursmithd/src/packages.rs:684-707 | the difference of the closures before and after is what only that subscription needed |
| Review.ReviewDesk.InsertRevision | crates/aursmithd/src/packages.rs:167-266 | a snapshot becomes a revision unless its commits are known; it supersedes the open ones, takes the latest approval as baseline, and is approved at once only when an approved revision has the same tree |
| Review.InsertStores | crates/aursmithd/src/packages.rs:167-266 | row by row: the same commits once; rejected when blocked, approved when an approved revision has the tree, else waiting; the newest approval as baseline; what was open before superseded |
| Review.InsertRecords | crates/aursmithd/src/packages.rs:217-251 | the scan's verdict is recorded, and for a reuse the newest approved revision of the tree |
| Review.ReviewDesk.Take | crates/aursmithd/src/review.rs:379-419 | the oldest waiting revision is read by the agents after their old rows are gone; without agents it goes to a human |
| Review.TakeStarts | crates/aursmithd/src/review.rs:379-419 | the oldest waiting revision starts, its agent rows go, and without agents it goes to a human |
| Review.ReviewDesk.ConcludeReview | crates/aursmithd/src/review.rs:420-456 | verdicts are recorded, the high agent is asked only when the low ones do not both approve, and the outcome only reaches a revision that still waits |
| Review.ConcludeDecides | crates/aursmithd/src/review.rs:420-456 | two low rows are recorded, the high agent is asked exactly when they do not both approve, and a waiting revision with a predecessor is approved exactly by both or by the high one; any other goes to a human |
| Review.ConcludeTooLate | crates/aursmithd/src/review.rs:440-456 | a revision that no longer waits keeps its state when the verdicts arrive |
| Review.BothLowsSuffice | crates/aursmithd/src/review.rs:420-456 | two approving low agents suffice for a waiting revision with a predecessor, and then no high agent was asked |
| Review.ReviewDesk.Judge | crates/aursmithd/src/review.rs:545-591 | a human decides on a revision in manual review only, with a reason of 8 to 4000 characters |
| Review.JudgementDecides | crates/aursmithd/src/review.rs:545-591 | in manual review, with 8 to 4000 characters: yes approves, no rejects, the row says so, and nothing else changes |
| Review.ReviewDesk.ReviewAgain | crates/aursmithd/src/review.rs:594-612 | only a revision in manual review goes back to the agents |
| Review.SentBackWaits | crates/aursmithd/src/review.rs:594-612 | only a revision in manual review waits again, and nothing else changes |
| Review.EventKeeps | crates/aursmithd/src/review.rs:379-456 | every event keeps the invariant and undoes no decision nor what an approval rests on |
| Review.HistoryKeeps | crates/aursmithd/src/packages.rs:167-266 | after every run each package has at most one open revision, the newest, and every approval has its justification: a human's judgement, one reading by the agents in which both low ones or the high one approved, or an equal tree approved earlier |
| Review.AgentApprovalsHaveRows | crates/aursmith-core/src/review.rs:42-70 | after every run an approved revision without a human or reuse row has an approved predecessor and two approving low rows or an approving high row, the latter whenever a low row does not approve |
| Review.DecisionsStand | crates/aursmithd/src/review.rs:440-456 | approved, rejected and superseded are absorbing over every continuation of a run |
| Review.FirstApprovalIsHuman | crates/aursmith-core/src/review.rs:60-70 | the revision of a package that was approved first was approved by a human |
| Review.HumanApprovedBefore | crates/aursmith-core/src/review.rs:60-70 | behind every approval stands an earlier one of the same package, or itself, that a human gave |
| Review.ApprovalHasOrigin | crates/aursmithd/src/packages.rs:193-251 | every approval traces back through equal trees of the same package to one that a human gave, or the agents by their rule |
| Review.ApprovalsMoveForward | crates/aursmithd/src/packages.rs:187-215 | the latest approved revision of a package only moves on, to what was just approved |
| Upload.AnyRequestsAreSafe | crates/aursmithd/src/builds.rs:548-613 | after any sequence of requests a partial file is shorter than declared and a final one has the declared size and digest |
| Upload.HonestPut | crates/aursmithd/src/builds.rs:548-613 | a chunk of the builder's own file keeps the server at a prefix of it, never goes back, and never meets a digest mismatch |
| Upload.HonestHistory | crates/aursmithd/src/builds.rs:548-613 | lost, repeated and reordered honest requests leave a prefix of the file or the file, without undoing progress |
| Upload.ChunksStoreTheFile | crates/aursmithd/src/builds.rs:585-607 | sending the chunks from wherever the server stands stores exactly the file |
| Upload.Session.SendChunk | crates/aursmith-builder/src/runner.rs:557-570 | what each reply tells the builder about the server, when requests and replies may get lost or arrive again |
| Upload.UploadFile | crates/aursmith-builder/src/runner.rs:531-573 | the loop ends; on success the stored file is the local one; a digest mismatch cannot happen and the offset check cannot fail with a positive chunk size |
| Builds.UsableOfFew | crates/aursmithd/src/builds.rs:50-75 | among at most five succeeded builds there is a usable one exactly when one is on disk |
| Builds.UsableAmong | crates/aursmithd/src/builds.rs:50-75 | the usable build is a succeeded one with all files on disk, and no better one has its files |
| Builds.BuildTable.FindUsable | crates/aursmithd/src/builds.rs:50-75 | latest approved revision first, then the newest finished; five rows are looked at |
| Lifecycle.UsableIsPreferred | crates/aursmithd/src/builds.rs:50-75 | said of rows and files: the usable build is on disk, of the newest approved revision when one on disk is, and among its like finished last; with at most five succeeded builds there is one as soon as any is on disk |
| Builds.BuildTable.FindDependencies | crates/aursmithd/src/builds.rs:101-120 | the builds to install are exactly the usable builds of the other packages the graph reaches, if all have one and no choice is open |
| Builds.BuildTable.CancelQueued | crates/aursmithd/src/builds.rs:125-152 | queued builds outside the closure or of an outdated revision fail, all others stay |
| Lifecycle.CancellationDecides | crates/aursmithd/src/builds.rs:125-152 | queued builds outside the closure or not of the newest approved revision fail with their codes, every other row stays |
| Builds.BuildTable.QueueMissing | crates/aursmithd/src/builds.rs:153-178 | a package whose latest approved revision has no build yet gets one |
| Lifecycle.QueueingDecides | crates/aursmithd/src/builds.rs:153-178 | a listed package gets a new build of its newest approved revision exactly when that has none |
| Builds.BuildTable.ScheduleBuilds | crates/aursmithd/src/builds.rs:123-180 | cancelling and queueing together, keeping the invariant |
| Builds.ScheduleSettles | crates/aursmithd/src/builds.rs:123-180 | after one scheduling nothing queued is stale and nothing is missing, and exactly then another one changes no build |
| Builds.BuildTable.Fail | crates/aursmithd/src/builds.rs:203-237 | a transient failure of the first two attempts is queued again, any other fails for good, and the files go |
| Lifecycle.FailureDecides | crates/aursmithd/src/builds.rs:203-237 | the eight named codes are tried again after the first two attempts, everything else is final; the files go and no other row changes |
| Builds.BuildTable.Expire | crates/aursmithd/src/builds.rs:240-256 | exactly the builds whose lease ran out fail transiently |
| Lifecycle.ExpiryDecides | crates/aursmithd/src/builds.rs:240-256 | exactly running and uploading builds whose lease is over fail, as a failure that may pass |
| Builds.BuildTable.LeaseNext | crates/aursmithd/src/builds.rs:260-352 | after expiry the oldest queued build that is ready is claimed, with its dependency builds |
| Lifecycle.LeaseDecides | crates/aursmithd/src/builds.rs:260-352 | after expiry the first queued build that may start is leased, for the seconds asked for within ten minutes and two days, with the builds it needs; nobody exactly when none may start |
| Builds.LeasedBuildIsReady | crates/aursmithd/src/builds.rs:279-312 | a new lease is for an approved revision, every AUR package it reaches has a usable build that is on disk and recorded with the lease, and no older queued build was ready |
| Builds.ValidateArtifacts | crates/aursmithd/src/builds.rs:384-424 | accepts exactly 1 to 64 artifacts of one version and valid size and architecture, with names that fit, no repetition, and precisely the declared outputs |
| Lifecycle.ArtifactsAccepted | crates/aursmithd/src/builds.rs:384-424 | the conditions on a reported list field by field: number, sizes, architectures, one version, names, no repetition, declared outputs |
| Builds.BuildTable.Report | crates/aursmithd/src/builds.rs:426-489 | a report counts only for the running attempt under a valid lease; it starts an upload or fails the build |
| Lifecycle.ReportDecides | crates/aursmithd/src/builds.rs:426-489 | a report counts while the running attempt holds its lease; a fitting one starts the upload, an unfitting one is final, a bad one fails with its code |
| Builds.BuildTable.Upload | crates/aursmithd/src/builds.rs:548-613 | a chunk touches one file of a build that is uploading, and the reply tells how far that file is or why it was refused |
| Lifecycle.ChunkDecides | crates/aursmithd/src/builds.rs:548-585 | a chunk is looked at for a file of the report while the build uploads under its lease, and touches that file only |
| Lifecycle.ChunkIsTaken | crates/aursmithd/src/builds.rs:585-613 | a chunk is taken exactly where the file ends, with 1 byte to 32 MiB within the size; the last one completes the file or empties it, by its digest |
| Builds.BuildTable.CompleteBuild | crates/aursmithd/src/builds.rs:615-646 | succeeds exactly when the build is uploading under a valid lease and every artifact is stored |
| Lifecycle.CompletionDecides | crates/aursmithd/src/builds.rs:615-646 | completion succeeds exactly for an uploading build under its lease with every artifact stored, and nothing else changes |
| Builds.SucceedsOnlyWhenStored | crates/aursmithd/src/builds.rs:615-646 | whatever the event, a build becomes succeeded only by completion and only with every reported artifact stored at its size and digest |
| Builds.BuildTable.RebuildPackage | crates/aursmithd/src/builds.rs:781-815 | queues the latest approved revision unless the package has an active build |
| Lifecycle.RebuildDecides | crates/aursmithd/src/builds.rs:781-815 | a rebuild queues the newest approved revision exactly when there is one and nothing of the package is queued or in progress |
| Builds.BuildTable.RemoveOthers | crates/aursmithd/src/publish.rs:278-291 | removing the directories of builds that are not kept changes no row and takes exactly their files |
| Lifecycle.CleanUpDecides | crates/aursmithd/src/publish.rs:278-291 | exactly directories that are neither kept nor of a running or uploading build go |
| Builds.EventKeeps | crates/aursmithd/src/builds.rs:123-256 | every event keeps the build invariant; succeeded and failed builds stay, attempts and logs only grow |
| Builds.HistoryKeeps | crates/aursmithd/src/builds.rs:123-646 | in every run attempts stay within three, each attempt is leased at most once and has at most one accepted report, each revision has at most one active build, its revision is approved, and files on disk are safe |
| Builds.OutcomesStand | crates/aursmithd/src/builds.rs:203-256 | succeeded and failed are absorbing over every continuation of a run |
| Delivery.NeverAwaitedAgain | crates/aursmithd/src/builds.rs:361-438 | once the server stopped waiting for a leased attempt's report it never waits again, whatever event happens |
| Delivery.ReadGuestResult | crates/aursmith-builder/src/runner.rs:353-384 | accepts exactly results that agree with the files' own size and digest; the sorted records describe their files, as an upload needs |
| Delivery.Job.SendReport | crates/aursmith-builder/src/runner.rs:495-503 | when an answer arrives, it is a conflict exactly when the server, as the request found it, did not await this attempt; after any answer it is not awaited any more; agreement means the server holds these artifacts |
| Delivery.Job.SendComplete | crates/aursmith-builder/src/runner.rs:523-527 | agreement to complete means the build succeeded and every stored file is the builder's output |
| Delivery.CompletedIsStored | crates/aursmithd/src/builds.rs:615-646 | a completed build stores, under every reported name, the bytes whose digest the builder took, whatever the transfer did on the way |
| Delivery.Job.Deliver | crates/aursmith-builder/src/runner.rs:487-528 | done with a good report means succeeded with the builder's files stored; done and discarded mean the report is not awaited; an unmarked report that is not awaited is never delivered |
| Delivery.Job.DeliverWithRetries | crates/aursmith-builder/src/runner.rs:456-485 | six tries unless one ends it; the job directory goes only when the server no longer waits for this attempt; an unmarked one that is not awaited goes or stays, but is never marked |
| Delivery.Job.Execute | crates/aursmith-builder/src/runner.rs:107-129 | a leased build ends delivered, discarded, or kept with its report, while reviews, scheduling, clean-up and other clients go on |
| Delivery.Job.Recover | crates/aursmith-builder/src/runner.rs:576-615 | after a restart the kept report, or that the builder restarted, is delivered for the same attempt under the same rule |
| Delivery.LostMarkerDiscards | crates/aursmith-builder/src/runner.rs:493-503 | a second report of an attempt that is uploading is refused; by `Delivery.Job.Deliver` the job then is not delivered, so a lost acknowledgement costs the build |
| Order.SortsAlike | crates/aursmithd/src/state.rs:206-213 | with a comparison that tells elements apart, two lists sort alike exactly when they hold the same elements as often |
| Planning.RecordsAreOrdered | crates/aursmith-core/src/protocol.rs:67-76 | artifact records are totally ordered by their fields |
| Planning.PublishedIsGreatest | crates/aursmithd/src/publish.rs:40-67 | the published packages are closed under all resolved and chosen dependencies and contain every closed set of members with usable builds |
| Planning.ListingDoesNotMatter | crates/aursmithd/src/publish.rs:58-73 | plan or name clash depend on the set of published packages only, not on the order of visiting |
| Planning.PlanIsExact | crates/aursmithd/src/publish.rs:58-82 | the plan lists exactly the artifacts of the chosen builds, sorted, one per package name |
| Planning.Planner.DesiredState | crates/aursmithd/src/publish.rs:40-83 | fails exactly on a name clash; else yields the plan, what is withheld, and a source build for every file |
| Selection.PlanTakesPreferred | crates/aursmithd/src/publish.rs:40-73 | each planned record is of the preferred build on disk of a member all of whose dependencies have usable builds, and every artifact of such builds is planned |
| Selection.NoPlanExactly | crates/aursmithd/src/publish.rs:58-67 | there is no plan exactly when two packages that would be published have an artifact of one package name |
| Selection.PlanIsInOrder | crates/aursmith-core/src/protocol.rs:67-76 | the plan's records are in the order of file, digest, size, name, version and architecture, texts character by character |
| Planning.CleaningIsInvisible | crates/aursmithd/src/publish.rs:244-292 | cleaning up changes no member's usable build and not the plan, spares builds in progress and those sharing a digest with the three newest publications |
| Planning.Planner.CollectGarbage | crates/aursmithd/src/publish.rs:244-292 | removes exactly the directories that are neither kept nor in progress, and keeps the build invariant |
| Selection.DirectoriesThatStay | crates/aursmithd/src/publish.rs:244-292 | exactly the directories of builds in progress, of members' usable builds, and of succeeded builds that share a file with one of the three newest publications stay |
| Exchange.EventKeeps | crates/aursmithd/src/publish.rs:129-241 | results, writes, signer turns that are cut or fail anywhere and answer nothing, a success or a harmless failure, lost answers and rollbacks keep at most one plan pending, the newest, and the newest released plan served unless its successor is |
| Exchange.HistoryKeeps | crates/aursmithd/src/publish.rs:129-241 | the same over every run whose results are collected in time and whose failures are answered where they do no harm |
| Exchange.EventKeepsOrder | crates/aursmithd/src/publish.rs:129-241 | without any hypothesis on names, answers or time: at most the newest publication is pending, the exchange directories hold at most its plan and answer, and nothing when it is settled; only writing needs nothing pending |
| Exchange.RunServes | crates/aursmithd/src/signer.rs:180-300 | what a cut run leaves served: the plan it works on, or all that was served before |
| Exchange.RunSpares | crates/aursmithd/src/signer.rs:180-300 | what keeps another release whole through a turn cut anywhere: it is the turn's own plan, or the current release when the turn begins (the previous one, when that is the plan itself) |
| Exchange.FailureKeepsExactly | crates/aursmithd/src/signer.rs:134-155 | answering a failure at any call of a turn keeps the exchange in order exactly when the newest released plan is served and, where the turn commits and prunes, is the plan itself or the current release (the previous one, when the plan itself is current) |
| Exchange.CarefulKeeps | crates/aursmithd/src/signer.rs:134-155 | plans written while the newest released plan is current, and no rollback under a plan not committed yet, make every failure harmless |
| Exchange.InboxPassIsRun | crates/aursmithd/src/signer.rs:121-159 | a pass over the inbox is a run of signer events, down to disk and results, whatever names stand for |
| Exchange.ReleasedIsReusable | crates/aursmithd/src/publish.rs:130-157 | with nothing pending, every artifact of the newest released plan can be reused from the hot directory, after rollbacks and failed plans too |
| Exchange.DeltaIsComplete | crates/aursmithd/src/publish.rs:154-165 | the signer finds each artifact of the plan it works on, in the inbox at the planned size and digest or reusable |
| Exchange.PublishSucceedsExactly | crates/aursmithd/src/signer.rs:180-300 | a valid plan with honest metadata is published exactly when its release is whole already or its place is empty |
| Reconciling.RoundIsCollectAndWrite | crates/aursmithd/src/publish.rs:86-127 | a round collects and then writes at most one plan, never while a member has an active build or a plan is pending |
| Reconciling.WhatToWrite | crates/aursmithd/src/publish.rs:96-125 | in a steady world, whatever names stand for, the round writes exactly when the desired plan is not the released, current one |
| Reconciling.TurnDescends | crates/aursmithd/src/publish.rs:86-241 | each turn of server and succeeding signer comes closer to the desired plan, and changes only the time once there |
| Reconciling.ReconcileConverges | crates/aursmithd/src/publish.rs:86-241 | from any steady world, whatever is pending, failed or released and whatever names stand for, three turns with a succeeding signer bring the newest released plan and the signer's current release to the desired plan, for good |
| Reconciling.NamedReconcileConverges | crates/aursmithd/src/publish.rs:86-241 | where names fix contents the signer's success follows from valid plans, honest metadata and places that are whole or empty, and the release is served |
| Reconciling.WrittenIsWorkable | crates/aursmithd/src/publish.rs:154-165 | without names: with the newest released plan served, and what can be reused as recorded, the signer succeeds with the plan that is written, though other packages are published under its file names |
| Reconciling.RebuildConverges | crates/aursmithd/src/publish.rs:86-241 | on such ground two turns publish the desired plan, also one of rebuilds under published names, and its release is served, for good |
| Publishing.Publisher.CollectResults | crates/aursmithd/src/publish.rs:180-241 | each pending row is settled by its result, an unreadable result or the timeout, and its files are removed |
| Rounds.CollectionDecides | crates/aursmithd/src/publish.rs:180-241 | a pending row is settled by its answer, by one that does not parse, or after an hour, and then the exchange directories are empty; nothing else changes |
| Publishing.Publisher.WritePlan | crates/aursmithd/src/publish.rs:130-177 | hands over the plan with exactly the files whose digests the newest released plan lacks, and records it as pending |
| Rounds.HandOverDecides | crates/aursmithd/src/publish.rs:130-177 | exactly the files whose digests the newest released plan does not list are handed over, as stored, and the plan is recorded as pending |
| Publishing.SourcesAreCopyable | crates/aursmithd/src/publish.rs:154-165 | every source file of a desired plan is there to copy |
| Publishing.Publisher.IsActive | crates/aursmithd/src/builds.rs:78-98 | a package is active exactly when a build of it is in progress or queued and ready |
| Rounds.ActiveIsBusy | crates/aursmithd/src/builds.rs:78-98 | a package is busy when a build of it runs or uploads, or waits and may start |
| Publishing.Publisher.ReconcileOnce | crates/aursmithd/src/publish.rs:86-127 | one round; a new plan is the only pending one |
| Rounds.RefreshDecides | crates/aursmithd/src/publish.rs:86-95 | a round first collects results, then expires leases, then schedules builds |
| Rounds.RoundDecides | crates/aursmithd/src/publish.rs:86-127 | a plan is written exactly when no member is busy, nothing is pending, and the newest publication is not the same plan released or declined less than 900 seconds ago; without one, unless the plan is empty |
| Rounds.OtherPlansDoNotWait | crates/aursmithd/src/publish.rs:110-124 | a newest publication of another plan never delays this one, whatever its state and age |
| CrashSafety.PrepareDelivers | crates/aursmithd/src/signer.rs:187-292 | a preparation that succeeds fails no call, has every package and signature in place, and staged a complete release |
| CrashSafety.CommitServes | crates/aursmithd/src/signer.rs:293 | the rename that commits serves the new release and every old one |
| CrashSafety.ActivateIsSafe | crates/aursmithd/src/signer.rs:314-366 | activation may be cut between any two calls |
| CrashSafety.PublishIsSafe | crates/aursmithd/src/signer.rs:180-300 | publishing, pruning included, may be cut between any two calls |
| CrashSafety.PublishEnds | crates/aursmithd/src/signer.rs:180-300 | a publish that succeeds ends with the release under all links and the former current one as previous, and none of its calls fails |
| CrashSafety.EventIsSafe | crates/aursmithd/src/signer.rs:180-439 | every cut or complete run keeps every link served |
| CrashSafety.HistoryIsSafe | crates/aursmithd/src/signer.rs:180-439 | from an empty repository, after any history of such runs, every link names a whole release |
| Committing.PreparedIsInPlace | crates/aursmithd/src/signer.rs:187-290 | without any hypothesis on what is published or what names stand for: a preparation that succeeds fails no call, stages the complete release, and has every planned package and the keyring in place, matching and verified |
| Committing.CommitIsWhole | crates/aursmithd/src/signer.rs:284-293 | the commit rename then serves the release whole |
| Committing.FreshSucceedsExactly | crates/aursmithd/src/signer.rs:187-300 | a plan not committed yet is published exactly when it can be prepared and nothing is in the place of its release |
| Committing.SuppliedIsPrepared | crates/aursmithd/src/signer.rs:195-263 | it can be prepared when each package is delivered, or published as recorded under a valid signature |
| Committing.AcceptedExactly | crates/aursmithd/src/signer.rs:618-638 | handed over with every package supplied, on an empty place and beside a sound keyring, a plan is published exactly when it has format 1, positive sizes, no file or package twice, and no package of the keyring's name |
| Committing.PublishedIsAcceptable | crates/aursmithd/src/signer.rs:195-212 | whatever is published had such fields, and each package was published at its size and digest under a valid signature, or delivered at them with the recorded name, version and architecture |
| Committing.ActivationChecks | crates/aursmithd/src/signer.rs:302-334 | activation is let through exactly for six files, signatures that cover them, a manifest of this plan and these databases, and every listed package at its size under a valid signature |
| Committing.ReleaseLists | crates/aursmithd/src/signer.rs:236-283 | the databases of a release list each planned package with its version and file, the keyring, and nothing else |
| Committing.SuccessServes | crates/aursmithd/src/signer.rs:134-141 | a success leaves its release served without any hypothesis on names |
| Convergence.PublishRetryConverges | crates/aursmithd/src/signer.rs:180-300 | a crashed publish that runs again succeeds and serves the release under all links; what else it leaves is compared in `RetryIsSameButGarbage` |
| Convergence.RetryConvergesExactly | crates/aursmithd/src/signer.rs:369-391 | every link, `previous` too, is right after a retry from any cut exactly when the first try could tell the current release |
| Convergence.RetryIsSameButGarbage | crates/aursmithd/src/signer.rs:180-300 | the retry ends with the links of an uninterrupted publish and with all its releases, packages and signatures; whatever else is there is outside what current and previous need |
| Convergence.RetrySameExactly | crates/aursmithd/src/signer.rs:369-391 | that is so for every cut exactly when the first try could tell the current release |
| Convergence.GarbageGoes | crates/aursmithd/src/signer.rs:404-439 | after one more complete pruning releases, packages and signatures are exactly those of the uninterrupted publish |
| Convergence.RetryLosesPrevious | crates/aursmithd/src/signer.rs:353-361 | otherwise there is a cut after which the retry ends with other links |
| Convergence.PruneIsExact | crates/aursmithd/src/signer.rs:404-439 | on any disk: a pruning to its end leaves exactly the releases of current and previous and those files and signatures their manifests reference, failing no call; without either link, or when a kept release has no manifest, it does nothing |
| Convergence.PruneIsSafeExactly | crates/aursmithd/src/signer.rs:404-439 | the function alone, called on any disk, is safe at every cut exactly when the links stay within what is kept; the signer calls it where they do |
| Convergence.ActivateCurrentIsIdle | crates/aursmithd/src/signer.rs:335-361 | on any disk where the signer's checks let it: activating the current release changes no link exactly when the links agree |
| Convergence.RollbackSwaps | crates/aursmithd/src/signer.rs:394-401 | on any disk where the signer's checks let it: a rollback to its end swaps current and previous, puts the new current under all links and touches nothing else |
| Convergence.RollbackTwice | crates/aursmithd/src/signer.rs:394-401 | the second rollback is let through exactly when the release that was left may be activated, and then the two restore every link exactly when the links agreed |
| Signer.Signer.Do | crates/aursmithd/src/signer.rs:284-293 | one call happens, or the machine stops and nothing more does |
| Signer.Signer.Open | crates/aursmithd/src/signer.rs:187-191 | what a former run left in the staging directory goes before an empty one is made |
| Signer.Signer.Collect | crates/aursmithd/src/signer.rs:195-222 | the artifact loop issues a prefix of the calls it should, all of them on success |
| Signer.Signer.ProvideKeyring | crates/aursmithd/src/signer.rs:223-235 | the keyring is reused when published, else staged and signed |
| Signer.Signer.Expect | crates/aursmithd/src/signer.rs:250-263 | the database that is compared against has each planned package and the keyring |
| Signer.Signer.Move | crates/aursmithd/src/signer.rs:284-290 | packages and signatures move one rename at a time, in order |
| Signer.Signer.Prepare | crates/aursmithd/src/signer.rs:187-292 | everything before the commit follows its script |
| Signer.Signer.Check | crates/aursmithd/src/signer.rs:302-334 | activation's checks hold exactly for a release that may be activated |
| Signer.Signer.Activate | crates/aursmithd/src/signer.rs:314-366 | six links are replaced one at a time after the checks |
| Signer.Signer.Prune | crates/aursmithd/src/signer.rs:404-439 | pruning follows its script for some listing of the directories |
| Signer.Signer.Publish | crates/aursmithd/src/signer.rs:180-300 | a publish follows its script, whichever path it takes |
| Signer.Signer.Rollback | crates/aursmithd/src/signer.rs:394-401 | a rollback follows its script |
| Signer.SuccessSwitches | crates/aursmithd/src/signer.rs:335-361 | a success leaves all links at its release, without any hypothesis on names |
| Signer.SuccessServes | crates/aursmithd/src/signer.rs:134-141 | where names fix contents, also after a crash, a turn that may answer a success leaves its release served |
| Signer.Signer.TakeTurn | crates/aursmithd/src/signer.rs:134-155 | one plan's publish is a turn, whatever the plan delivers: cut anywhere with no answer or a failure, or whole with a success; when no call fails, a success exactly when the plan can be published |
| Signer.Signer.ProcessInbox | crates/aursmithd/src/signer.rs:121-159 | what happens is a list of turns, which fixes disk and results; old results stay; when it gets through, every plan of the inbox has a result; where names fix contents, a success means served, and wherever it stops clients are safe |
| Hazards.FailureLosesRelease | crates/aursmithd/src/signer.rs:121-159 | from every orderly world with released plan A, before it Z: rollback, a publish of B without its answer, a failure - and A, still the newest released plan, is gone with all packages neither B nor Z has |
| Hazards.FinishedIsReleased | crates/aursmithd/src/publish.rs:180-241 | a plan that is written, published and collected is the newest released one and the current release, and what was current is previous: how the world of `FailureLosesRelease` comes about |
| Hazards.FirstPublishForgets | crates/aursmithd/src/signer.rs:341-361 | the first publish of a repository has a cut after which another plan can still be published but cannot tell the current release, and that publish has a cut whose retry ends with other links |
| Hazards.CutPublishUnsettles | crates/aursmithd/src/signer.rs:341-361 | a publish over another release has a cut that leaves links that disagree, so that two rollbacks do not restore them |
| Hazards.InterruptedPruneBlocks | crates/aursmithd/src/signer.rs:404-439 | a whole old release, a pruning cut after its first file, a retry that succeeds, and the old plan wanted again: the signer cannot publish it |
| Hazards.RebuiltNameTears | crates/aursmithd/src/signer.rs:195-206 | release z serves a package and a plan has other bytes under its file name: there is a cut after which no try of that plan ever succeeds while the link to z stays and z has a package whose signature does not fit; no meaning of names covers such a plan |
| Hazards.RenamesSpareExactly | crates/aursmithd/src/signer.rs:284-293 | a publish keeps a served release served at every call before the pruning exactly when what is published under the names both use is what the plan wants, and the keyring is found |
| Installation.PlannedIsStored | crates/aursmithd/src/publish.rs:40-83 | a planned artifact is a record of a succeeded build, whose stored upload has its size and digest |
| Installation.EventKeeps | crates/aursmithd/src/publish.rs:86-177 | every event whatsoever of reviews, builds, reconciling and signing keeps plans, inbox, manifests and releases traceable to succeeded builds, and the exchange in order: at most the newest publication pending, nothing else in inbox and outbox |
| Installation.RunKeeps | crates/aursmithd/src/publish.rs:86-177 | the same in every state of every run from an empty installation |
| Installation.OnePending | crates/aursmithd/src/publish.rs:96-127 | in every state of every run a pending publication is the newest one |
| Installation.ProvenanceOfEverything | crates/aursmithd/src/builds.rs:384-646 | in every state of every run each package in the manifest of a linked release has its succeeded build, its lease and report, its approved revision, a human or agent origin, and a human approval of the package |
| Installation.CommittedWasWhole | crates/aursmithd/src/signer.rs:284-293 | an event that leaves a release committed is a turn at its plan, and at one of that turn's calls the release was whole: complete, every package with the recorded bytes under a valid signature |
| Installation.EveryReleaseWasWhole | crates/aursmithd/src/signer.rs:284-293 | every committed release of every run was whole at a call of one of its own turns |
| Installation.DesiredIsWanted | crates/aursmithd/src/publish.rs:40-83 | the desired plan has a source for each file, and where file names are distinct each source holds what the record says |
| Installation.DesiredIsAcceptable | crates/aursmithd/src/publish.rs:74-82 | the fields of the desired plan are in order exactly when no file name and not the keyring's package is planned twice |
| Pipeline.EventNames | crates/aursmithd/src/publish.rs:154-165 | under the hypothesis on the names of what is planned, every event keeps the signer's invariant and the inbox in line with the names |
| Pipeline.BytesOfEverything | crates/aursmithd/src/signer.rs:197-206 | in every run under that hypothesis each package of a linked release is in place at all times, with the recorded bytes under a valid signature |
| Pipeline.RunKeepsExchange | crates/aursmithd/src/publish.rs:86-241 | in every run of the whole system with results in time and failures answered where they do no harm, one plan at most is pending and the newest released plan stays served until its successor is |
| Pipeline.NothingIsMissing | crates/aursmithd/src/signer.rs:195-222 | in every such run the signer finds each artifact of the plan it works on, if one digest is not planned under two names |
| Pipeline.CarefulRunsAreTimely | crates/aursmithd/src/signer.rs:134-155 | in runs whose rounds write while the newest released plan is current, and without rollback under an uncommitted plan, every failure of the signer is harmless, at any call and as often as it happens |
| Pipeline.DesiredIsWanted | crates/aursmithd/src/publish.rs:40-83 | what the loop converges to is what the build table holds: the desired plan with its contents and sources |
| Schedule.NextCheckFits | crates/aursmithd/src/packages.rs:376-388 | where there is a next check, it is strictly later and at most one period away, at the package's offset |
| Schedule.NextCheckExists | crates/aursmithd/src/packages.rs:376-388 | there is a next check exactly when a date can hold the next second at the package's offset; the replacement is never taken without a panic |
| Schedule.NextSecondFits | crates/aursmithd/src/packages.rs:381-385 | it is at the package's offset within the period |
| Schedule.NextSecondIsUnique | crates/aursmithd/src/packages.rs:384-385 | no other second fits |
| Schedule.PeriodAndOffset | crates/aursmithd/src/packages.rs:381-384 | a period has 60 seconds for each minute of the interval, at least one, and the offset is the rest of the prefix |
| Schedule.NextCheckIsMonotone | crates/aursmithd/src/packages.rs:376-388 | a later time has no earlier next check, and none where the earlier time has none |
| Schedule.NextCheckAdvancesOnePeriod | crates/aursmithd/src/packages.rs:376-388 | applied to its own result it advances by exactly one period, as long as that is a date |
| StateImport.AgreesExactly | crates/aursmithd/src/state.rs:206-231 | the comparison succeeds exactly when every table holds the same rows as often, missing tables counting as empty |
| StateImport.Database.Verify | crates/aursmithd/src/state.rs:216-236 | succeeds exactly when the rows are the same, with the row counts |
| StateImport.Database.Transact | crates/aursmithd/src/state.rs:139-195 | the transaction may be committed exactly when every row is accepted, references hold, and everything reads back as the document |
| StateImport.Database.Import | crates/aursmithd/src/state.rs:112-203 | succeeds exactly for a document that is supported, fits an empty database, breaks no constraint or reference and reads back the same; otherwise the tables stay as they were |
| StateImport.AdmittedExactly | crates/aursmithd/src/state.rs:112-138 | another format or version, an unknown table, or any row in the database is refused before the transaction |
| StateImport.InsertedExactly | crates/aursmithd/src/state.rs:139-170 | the rows of a table are taken exactly when each has only known columns and the constraints hold after each of them |
| StateImport.ExportThenImport | crates/aursmithd/src/state.rs:69-203 | exporting a database in order and importing into an empty one succeeds and keeps every table up to row order |

## Left out

- HTTP, sessions, authentication, configuration, the web interface and SQL: handlers are methods, tables are sequences of rows.
- AUR queries, Git, recipe parsing, the deterministic scanner's rules and the agents' own reasoning: their verdicts are inputs.
- Docker, makepkg, gpg, repo-add and bsdtar: what they produce is an arbitrary value, and signatures are records of what they cover.
- The file-name, digest-syntax and builder-name validators: their verdicts are inputs (`wellNamed`), and `Judge` gets its rationale trimmed.
  The signer's own syntax checks of a plan's names and digests are taken to hold.
- Log texts, their truncation, and the failure-text classifiers.
- The conversion of the old database and the older layout of release manifests.
- Interleavings inside one handler, several signer processes at once, and a rollback beside a running signer daemon.
- A lost timeout race: results are taken to be collected within the hour wherever `InTime` is named; the timeout itself is modelled.
- More than one repository name: a renamed repository would keep its old links, which pruning does not look at.
- The removal of a staging directory is one step, all release directories are listed in one order, and partial upload files have names of their own.
- The removal of a failed build's files is taken to succeed.
- Manifests carry no time of commit, and the keyring package is fixed.
- Name order inside a layer of the topological order, which the code does not keep; sets are visited in any order.
- The dependencies of the 257th member of a truncated closure, which the code does not follow.
- Signer.Signer.Rollback: repeating an interrupted rollback is not claimed to converge, because the code does not make it.
- Builds.BuildTable.Report: the log, the response text and the error class column are not kept.
- Publishing.Publisher.WritePlan: the temporary directory and a failing copy are not modelled; sources are proved to be there.
- Delivery.Job.Deliver: how each file is transferred is open here, its loop is `Upload.UploadFile`; what is stored in the end is
  proved. Completion names the build and not the attempt, so the files are claimed to be this attempt's unless a later one took over.
- The overflow of 64-bit seconds for check intervals of astronomic length.
- StateImport.Database.Import: number formats and default values of columns appear only as what a row reads back as.
