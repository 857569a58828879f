/** The publishing loop's methods, over the build table, the publication table and the exchange directories. */
module Publishing {
  import opened Protocol
  import opened Store
  import opened Closure
  import opened Graph
  import opened Upload
  import opened Builds
  import opened Planning
  import opened Exchange
  import Repository

  /** The plan's sources are there to copy: each is a chosen build, and a chosen build is on disk. */
  lemma SourcesAreCopyable(revisions: seq<Revision>, b: Board, c: Closure, artifacts: seq<ArtifactRecord>,
      sources: map<string, nat>)
    requires Sourced(b, sources, artifacts)
    requires forall id <- sources.Values :: exists base <- PublishedBases(revisions, b, c) ::
        Chosen(revisions, b, c)[base] == id
    ensures Copyable(b, artifacts, sources)
  {
    hide UsableAmong, ClosureSet, LatestApproved;
    forall a <- artifacts ensures a.file in sources && SlotOf(b, sources[a.file], a.file).stored.Some? {
      var id := sources[a.file];
      assert id in sources.Values;
      var base :| base in PublishedBases(revisions, b, c) && Chosen(revisions, b, c)[base] == id;
      assert UsableBuild(revisions, b, base) == Some(id);
      assert Present(b, id);
    }
  }

  class Publisher {
    const planner: Planner
    const inspect: Bytes -> PackageFile
    var publications: seq<Publication>
    var inbox: map<PlanId, InboxDirectory>
    var outbox: map<PlanId, Outcome>

    constructor (planner: Planner, inspect: Bytes -> PackageFile)
      ensures this.planner == planner && this.inspect == inspect && publications == [] && inbox == map[]
          && outbox == map[]
    {
      this.planner, this.inspect, publications, inbox, outbox := planner, inspect, [], map[], map[];
    }

    ghost function Value(): Server
      reads this, planner.table
    {
      Server(planner.table.Value(), publications, inbox, outbox)
    }

    method Finish(i: nat, state: PublicationState, at: nat)
      requires i < |publications|
      modifies this
      ensures Value() == Settle(old(Value()), i, state, at)
    {
      var row := publications[i];
      var id := Sha256Of(row.plan);
      publications := publications[i := row.(state := state, finishedAt := at)];
      inbox, outbox := inbox - {id}, outbox - {id};
    }

    /** Read the signer's results, and give up on plans it has not answered for an hour. */
    method CollectResults()
      modifies this
      ensures Value() == Collect(old(Value()))
    {
      hide Settle;
      ghost var start := Value();
      for i := 0 to |publications|
        invariant |publications| == |start.publications| && Value() == CollectRows(start, i)
      {
        var row := publications[i];
        if row.state != Pending { continue; }
        var id := Sha256Of(row.plan);
        if id in outbox {
          match outbox[id] {
            case Done(published, at) => Finish(i, if published then Released else Declined, at);
            case Unreadable => Finish(i, Declined, planner.table.now);
          }
          SettleLength(CollectRows(start, i), i);
        } else if row.createdAt + SIGNER_TIMEOUT_SECONDS < planner.table.now {
          Finish(i, Declined, planner.table.now);
          SettleLength(CollectRows(start, i), i);
        }
      }
    }

    method IsActive(revisions: seq<Revision>, c: Closure, base: string) returns (active: bool)
      ensures active <==> HasActive(revisions, planner.table.Value(), c, base)
    {
      hide Ready;
      for i := 0 to |planner.table.builds|
        invariant forall j :: 0 <= j < i && planner.table.builds[j].base == base ==>
                    !InProgress(planner.table.Value(), j)
                        && !(planner.table.builds[j].state == Queued
                        && Ready(revisions, planner.table.Value(), c, base))
      {
        var row := planner.table.builds[i];
        if row.base == base && Active(row.state) {
          if row.state != Queued { return true; }
          var found := planner.table.FindDependencies(revisions, c, base);
          if found.Some? { return true; }
        }
      }
      active := false;
    }

    /** Copy what the signer does not hold yet. */
    method CopyNew(desired: Desired, held: set<string>) returns (files: map<string, PackageFile>)
      requires Copyable(planner.table.Value(), desired.plan.artifacts, desired.sources)
      ensures files == Delta(planner.table.Value(), inspect, desired.plan.artifacts, desired.sources, held)
    {
      hide Delta;
      ghost var b := planner.table.Value();
      var artifacts := desired.plan.artifacts;
      files := map[];
      DeltaOfNothing(b, inspect, desired.sources, held);
      for i := 0 to |artifacts|
        invariant files == Delta(b, inspect, artifacts[..i], desired.sources, held)
      {
        var a := artifacts[i];
        assert artifacts[..i + 1] == artifacts[..i] + [a];
        DeltaPush(b, inspect, artifacts[..i], a, desired.sources, held);
        if a.sha256 in held { continue; }
        var id := desired.sources[a.file];
        assert SlotOf(b, id, a.file).stored.Some?;
        files := files[a.file := inspect(planner.table.directories[id][a.file].stored.value)];
      }
      assert artifacts[..|artifacts|] == artifacts;
    }

    method AnyActive(revisions: seq<Revision>, c: Closure, bases: seq<string>) returns (active: bool)
      ensures active <==> exists base <- Elements(bases) :: HasActive(revisions, planner.table.Value(), c, base)
    {
      hide HasActive;
      for i := 0 to |bases|
        invariant forall base <- bases[..i] :: !HasActive(revisions, planner.table.Value(), c, base)
      {
        assert bases[..i + 1] == bases[..i] + [bases[i]];
        active := IsActive(revisions, c, bases[i]);
        if active {
          assert bases[i] in Elements(bases);
          return;
        }
      }
      assert bases[..|bases|] == bases;
      active := false;
    }

    /** Hand the plan and the new files over, and record the publication. */
    method WritePlan(desired: Desired)
      requires Copyable(planner.table.Value(), desired.plan.artifacts, desired.sources)
      modifies this, planner.table
      ensures Value() == Write(old(Value()), inspect, desired.plan, desired.sources)
    {
      hide NewestReleased, Copyable, Delta;
      var newest := NewestReleased(publications);
      var held := if newest.Some? then set a | a in newest.value.artifacts :: a.sha256 else {};
      var files := CopyNew(desired, held);
      inbox := inbox[Sha256Of(desired.plan) := Repository.InboxDirectory(Some(desired.plan), files)];
      publications := publications + [Publication(desired.plan, Pending, planner.table.now, 0)];
      planner.table.now := planner.table.now + 1;
    }

    /** One round: results, leases, schedule, and, when nothing is in the way, a new plan. */
    method ReconcileOnce(revisions: seq<Revision>, c: Closure)
        returns (wrote: bool, ghost bases: seq<string>, ghost sources: map<string, nat>)
      modifies this, planner.table
      ensures Elements(bases) == c.members
      ensures Value() == Reconcile(inspect, planner.repositoryName, revisions, c, bases, sources, old(Value()))
      ensures wrote <==> ToWrite(planner.repositoryName, revisions, c,
          Refreshed(revisions, c, bases, old(Value()))).Some?
      ensures wrote ==> |publications| == |old(publications)| + 1 && publications[|publications| - 1].state == Pending
                        && forall p <- publications[..|publications| - 1] :: p.state != Pending
    {
      hide Collect, Schedule, ExpireLeases, HasActive, PlannedArtifacts, Write, Chosen, Sourced, Copyable;
      ghost var start := Value();
      sources := map[];
      wrote := false;
      CollectResults();
      planner.table.Expire();
      var listed := planner.table.ScheduleBuilds(revisions, c);
      bases := listed;
      ghost var r := Value();
      assert r == Refreshed(revisions, c, bases, start);
      var active := AnyActive(revisions, c, listed);
      if active { return; }
      if exists p <- publications :: p.state == Pending { return; }
      var desired := planner.DesiredState(revisions, c);
      if desired.None? { return; }
      sources := desired.value.sources;
      SourcesAreCopyable(revisions, r.board, c, desired.value.plan.artifacts, sources);
      if publications == [] {
        if desired.value.plan.artifacts == [] { return; }
      } else {
        var last := publications[|publications| - 1];
        if last.plan == desired.value.plan {
          var failedRecently := last.state == Declined
              && last.finishedAt + FAILED_PLAN_BACKOFF_SECONDS > planner.table.now;
          if last.state == Released || failedRecently { return; }
        }
      }
      WritePlan(desired.value);
      WriteLength(r, inspect, desired.value.plan, sources);
      CollectLength(start);
      wrote := true;
    }
  }

  lemma DeltaOfNothing(b: Board, inspect: Bytes -> PackageFile, sources: map<string, nat>, held: set<string>)
    ensures Delta(b, inspect, [], sources, held) == map[]
  {
  }

  lemma DeltaPush(b: Board, inspect: Bytes -> PackageFile, before: seq<ArtifactRecord>, a: ArtifactRecord,
      sources: map<string, nat>, held: set<string>)
    requires Copyable(b, before + [a], sources)
    ensures Copyable(b, before, sources)
    ensures Delta(b, inspect, before + [a], sources, held) ==
              if a.sha256 in held then Delta(b, inspect, before, sources, held)
              else Delta(b, inspect, before, sources,
                  held)[a.file := inspect(SlotOf(b, sources[a.file], a.file).stored.value)]
  {
    assert forall x <- before :: x in before + [a];
    assert a in before + [a];
  }

  lemma SettleLength(s: Server, i: nat)
    requires i < |s.publications|
    ensures forall state, at :: |Settle(s, i, state, at).publications| == |s.publications|
  {
  }

  lemma WriteLength(s: Server, inspect: Bytes -> PackageFile, plan: PublishPlan, sources: map<string, nat>)
    requires Copyable(s.board, plan.artifacts, sources)
    ensures Write(s, inspect, plan, sources).publications
        == s.publications + [Publication(plan, Pending, s.board.now, 0)]
  {
  }

  lemma CollectLength(s: Server)
    ensures |Collect(s).publications| == |s.publications|
  {
  }
}
