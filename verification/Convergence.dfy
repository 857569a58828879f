/** What repeating a run achieves: a crashed publish converges, rollback is an involution, pruning is exact. */
module Convergence {
  import opened Protocol
  import opened Repository
  import opened CrashSafety

  // ---------------------------------------------------------------- a retry can do what the first try could

  /** `e` has all that a publish of `id` finds on `d`, and has no more of the release itself. */
  ghost predicate Offers(d: Disk, e: Disk, id: PlanId) {
    && e.keyring == d.keyring && e.inbox == d.inbox
    && d.hot.Keys <= e.hot.Keys && d.signatures.Keys <= e.signatures.Keys
    && (Vacant(d, id) ==> Vacant(e, id))
  }

  lemma {:induction false} CollectAgain(book: Book, d: Disk, e: Disk, id: PlanId, artifacts: seq<ArtifactRecord>)
    requires Inv(d, book) && Inv(e, book) && Offers(d, e, id) && NamesFixed(book, d, id)
    requires forall a <- artifacts :: a in id.plan.artifacts
    requires CollectScript(d, id, artifacts).ok
    ensures CollectScript(e, id, artifacts).ok
    ensures PackagePaths(e, id, artifacts) == PackagePaths(d, id, artifacts)
  {
    if |artifacts| > 0 {
      CollectAgain(book, d, e, id, artifacts[..|artifacts| - 1]);
      var a := artifacts[|artifacts| - 1];
      assert Delivered(e, id, a) == Delivered(d, id, a);
      assert Reusable(d, a) ==> Reusable(e, a);
    }
  }

  lemma PrepareAgain(book: Book, d: Disk, e: Disk, id: PlanId)
    requires Inv(d, book) && Inv(e, book) && Offers(d, e, id) && NamesFixed(book, d, id)
    requires PrepareScript(d, id).ok
    ensures PrepareScript(e, id).ok
  {
    hide CollectScript, KeyringScript, RepoAdd, ExpectedEntries, PackagePaths, IndexAndSeal, FilesToMove, MoveSteps;
    PrepareShape(d, id);
    CollectAgain(book, d, e, id, id.plan.artifacts);
    assert AllPaths(e, id) == AllPaths(d, id);
    KeyringAgain(book, e, id);
    assert GatherScript(e, id).ok;
  }

  lemma KeyringAgain(book: Book, d: Disk, id: PlanId)
    requires Inv(d, book)
    ensures KeyringScript(d, id).ok
  {
  }

  lemma PublishAgain(book: Book, d: Disk, e: Disk, id: PlanId)
    requires Inv(d, book) && Inv(e, book) && Offers(d, e, id) && NamesFixed(book, d, id)
    requires PublishScript(d, id).ok && !Committed(d, id)
    ensures NamesFixed(book, e, id) && PublishScript(e, id).ok
  {
    PublishShape(d, id);
    PrepareAgain(book, d, e, id);
    assert ReadablePlan(e, id) && Vacant(e, id) && !Committed(e, id);
    assert NamesFixed(book, e, id) by {
      forall a <- id.plan.artifacts ensures Delivered(e, id, a) ==> e.inbox[id].files[a.file] == book(a.file) {
        assert Delivered(e, id, a) == Delivered(d, id, a);
      }
    }
    CommitActivates(book, e, id);
  }

  // ---------------------------------------------------------------- where a crash can leave a publish

  /** `e` is a disk on which the release is committed and the first `j` links are swapped. */
  ghost predicate Switching(d: Disk, e: Disk, id: PlanId, j: nat) {
    && j <= |Targets(d, id)| && e.links == Linked(d.links, Targets(d, id)[..j])
    && Committed(e, id) && Activatable(e, id) && ReadablePlan(e, id)
  }

  lemma SwitchingFrom(book: Book, d: Disk, mid: Disk, e: Disk, id: PlanId, j: nat)
    requires Inv(mid, book) && Activatable(mid, id) && ReadablePlan(mid, id) && mid.links == d.links
    requires SameOutsideLinks(mid, e) && j <= |Targets(mid, id)| && e.links == Linked(mid.links, Targets(mid, id)[..j])
    ensures Inv(e, book) && Switching(d, e, id, j)
  {
    RelinkedInv(book, mid, e, id, j);
    StillActivatable(book, mid, e, id);
    assert Targets(mid, id) == Targets(d, id);
  }

  lemma RelinkedInv(book: Book, mid: Disk, e: Disk, id: PlanId, j: nat)
    requires Inv(mid, book) && Activatable(mid, id)
    requires SameOutsideLinks(mid, e) && j <= |Targets(mid, id)| && e.links == Linked(mid.links, Targets(mid, id)[..j])
    ensures Inv(e, book)
  {
    TargetsServed(book, mid, id);
    LinkedServes(mid, mid.links, Targets(mid, id)[..j]);
    RelinkKeeps(book, mid, e);
  }

  lemma StillActivatable(book: Book, mid: Disk, e: Disk, id: PlanId)
    requires Inv(mid, book) && Inv(e, book) && Activatable(mid, id) && SameOutsideLinks(mid, e)
    ensures Activatable(e, id) && Committed(e, id)
  {
    ActivatableIsServed(book, mid, id);
    ServedSame(mid, e, id);
    ActivatableIsServed(book, e, id);
  }

  lemma CutActivate(book: Book, d: Disk, mid: Disk, id: PlanId, k: nat) returns (j: nat)
    requires Inv(mid, book) && Activatable(mid, id) && ReadablePlan(mid, id) && mid.links == d.links
    requires k <= |LinkSteps(mid, Targets(mid, id))|
    ensures var e := Run(mid, LinkSteps(mid, Targets(mid, id))[..k]); Inv(e, book) && Switching(d, e, id, j)
  {
    TargetsServed(book, mid, id);
    j := LinksCut(mid, Targets(mid, id), k);
    SwitchingFrom(book, d, mid, Run(mid, LinkSteps(mid, Targets(mid, id))[..k]), id, j);
  }

  /** The three parts of a publish run: preparation, commit and link swaps, pruning. */
  lemma PublishParts(d: Disk, id: PlanId, order: ScanOrder)
    requires PublishScript(d, id).ok
    ensures ReadablePlan(d, id)
    ensures Committed(d, id) ==> Activatable(d, id) && PublishSteps(d, id, order) == LinkSteps(d, Targets(d, id))
    ensures !Committed(d, id) ==>
      var committed := PrepareScript(d, id).steps + [Commit(id)];
      var mid := Run(d, committed);
      var switched := committed + LinkSteps(mid, Targets(mid, id));
      && PrepareScript(d, id).ok && Vacant(d, id) && Activatable(mid, id)
      && PublishScript(d, id).steps == switched
      && PublishSteps(d, id, order) == switched + PruneScript(Run(d, switched), order).steps
  {
    if Committed(d, id) {
      assert PublishSteps(d, id, order) == PublishScript(d, id).steps + [] == PublishScript(d, id).steps;
    } else {
      PublishShape(d, id);
    }
  }

  /** A cut publish is either still before the commit, or committed with some of the links swapped. */
  lemma CutPublish(book: Book, d: Disk, id: PlanId, order: ScanOrder, k: nat) returns (j: nat)
    requires Inv(d, book) && NamesFixed(book, d, id) && PublishScript(d, id).ok
    requires k <= |PublishSteps(d, id, order)|
    ensures var e := Run(d, PublishSteps(d, id, order)[..k]);
            Inv(e, book) && ((Extends(d, e) && !Committed(d, id)) || Switching(d, e, id, j))
  {
    hide Apply, Run, PublishSteps, PublishScript, PrepareScript, PruneScript, Inv, NamesFixed, Activatable, Switching,
        LinkSteps, Targets, Extends, Served, ReleaseFor;
    PublishParts(d, id, order);
    if Committed(d, id) {
      j := CutActivate(book, d, d, id, k);
    } else {
      var prepare := PrepareScript(d, id).steps;
      var committed := prepare + [Commit(id)];
      var mid := Run(d, committed);
      var switched := committed + LinkSteps(mid, Targets(mid, id));
      var prune := PruneScript(Run(d, switched), order).steps;
      CutRun(d, switched, prune, k);
      if k <= |switched| {
        Prepares(book, d, id);
        CommitActivates(book, d, id);
        j := CutSwitch(book, d, id, prepare, mid, k);
      } else {
        j := CutPrune(book, d, id, order, k - |switched|);
      }
    }
  }

  lemma Prepares(book: Book, d: Disk, id: PlanId)
    requires Inv(d, book) && NamesFixed(book, d, id)
    ensures forall s <- PrepareScript(d, id).steps :: Preparing(book, id, s)
  {
    hide PrepareScript, NamesFixed;
    PreparePrepares(book, d, id);
  }

  lemma CutSwitch(book: Book, d: Disk, id: PlanId, prepare: seq<Step>, mid: Disk, k: nat) returns (j: nat)
    requires Inv(d, book) && !Committed(d, id) && forall s <- prepare :: Preparing(book, id, s)
    requires mid == Run(d, prepare + [Commit(id)]) && Inv(mid, book) && Activatable(mid, id)
    requires ReadablePlan(mid, id) && mid.links == d.links
    requires k <= |prepare + [Commit(id)] + LinkSteps(mid, Targets(mid, id))|
    ensures var e := Run(d, (prepare + [Commit(id)] + LinkSteps(mid, Targets(mid, id)))[..k]);
            Inv(e, book) && (Extends(d, e) || Switching(d, e, id, j))
  {
    hide Apply, Inv, Activatable, Switching, LinkSteps;
    var committed, links := prepare + [Commit(id)], LinkSteps(mid, Targets(mid, id));
    CutRun(d, committed, links, k);
    if k <= |prepare| {
      assert committed[..k] == prepare[..k];
      PreparingRunKeeps(book, d, id, prepare[..k]);
      j := 0;
    } else {
      assert committed[..|committed|] == committed && links[..0] == [];
      j := CutActivate(book, d, mid, id, k - |committed|);
    }
  }

  lemma CutPrune(book: Book, d: Disk, id: PlanId, order: ScanOrder, k: nat) returns (j: nat)
    requires Inv(d, book) && NamesFixed(book, d, id) && PublishScript(d, id).ok
    requires k <= |PruneScript(Run(d, PublishScript(d, id).steps), order).steps|
    ensures var mid := Run(d, PublishScript(d, id).steps);
            var e := Run(mid, PruneScript(mid, order).steps[..k]);
            Inv(e, book) && Switching(d, e, id, j)
  {
    PublishEnds(book, d, id);
    var mid := Run(d, PublishScript(d, id).steps);
    assert ReadablePlan(mid, id);
    PruneDiscards(mid, order);
    var steps := PruneScript(mid, order).steps[..k];
    DiscardingRunThins(mid, steps);
    ThinnedSwitching(book, d, mid, Run(mid, steps), id);
    j := |Targets(d, id)|;
  }

  lemma ThinnedSwitching(book: Book, d: Disk, mid: Disk, e: Disk, id: PlanId)
    requires Inv(mid, book) && Published(d, mid, id) && ReadablePlan(mid, id) && Thinned(mid, e)
    ensures Inv(e, book) && Switching(d, e, id, |Targets(d, id)|) && Served(e, id)
  {
    assert mid.links[Current] == id;
    ThinningKeepsServed(mid, e, id);
    ThinningKeepsInv(book, mid, e);
    ActivatableIsServed(book, e, id);
    assert Targets(d, id)[..|Targets(d, id)|] == Targets(d, id);
    LinkedIsSwitched(d, id);
  }

  // ---------------------------------------------------------------- retry convergence

  /** The links all agree, except perhaps `previous`. */
  predicate AgreeButPrevious(a: map<LinkName, PlanId>, b: map<LinkName, PlanId>) {
    a - {Previous} == b - {Previous}
  }

  /** A retry knows which release was current before the first try. Only the `current` link tells reliably: without
      it the current release is read off the database link, which activation replaces before it sets `previous`. */
  predicate RemembersPrevious(d: Disk, id: PlanId) {
    || Current in d.links
    || Db !in d.links
    || d.links[Db] == id
    || (Previous in d.links && d.links[Previous] == d.links[Db])
  }

  lemma {:induction false} LinkedElsewhere(links: map<LinkName, PlanId>, targets: seq<(LinkName, PlanId)>, l: LinkName)
    requires forall i :: 0 <= i < |targets| ==> targets[i].0 != l
    ensures var e := Linked(links, targets); (l in e <==> l in links) && (l in links ==> e[l] == links[l])
  {
    if |targets| > 0 { LinkedElsewhere(links, targets[..|targets| - 1], l); }
  }

  lemma {:induction false} LinkedThere(links: map<LinkName, PlanId>, targets: seq<(LinkName, PlanId)>, i: nat)
    requires i < |targets| && forall k :: i < k < |targets| ==> targets[k].0 != targets[i].0
    ensures var e := Linked(links, targets); targets[i].0 in e && e[targets[i].0] == targets[i].1
  {
    if i < |targets| - 1 { LinkedThere(links, targets[..|targets| - 1], i); }
  }

  lemma LinkedPrefix(d: Disk, id: PlanId, j: nat)
    requires j <= |Targets(d, id)|
    ensures var l := Linked(d.links, Targets(d, id)[..j]);
            var c := CurrentRelease(d);
            var swap := c.Some? && c.value != id;
            && (j == |Targets(d, id)| ==> l == Switched(d, id))
            && (j < |Targets(d, id)| ==>
                (Current in l <==> Current in d.links) && (Current in l ==> l[Current] == d.links[Current]))
            && (if j >= 4 then Db in l && l[Db] == id
                else (Db in l <==> Db in d.links) && (Db in l ==> l[Db] == d.links[Db]))
            && (if swap && j >= 5 then Previous in l && l[Previous] == c.value
                else (Previous in l <==> Previous in d.links) && (Previous in l ==> l[Previous] == d.links[Previous]))
  {
    hide Linked, Switched, Targets, CurrentRelease;
    var t := Targets(d, id);
    LinkedIsSwitched(d, id);
    assert t[..|t|] == t;
    if j < |t| { PrefixCurrent(d, id, j); }
    PrefixDatabase(d, id, j);
    PrefixPrevious(d, id, j);
  }

  lemma PrefixCurrent(d: Disk, id: PlanId, j: nat)
    requires j < |Targets(d, id)|
    ensures var l := Linked(d.links, Targets(d, id)[..j]);
            (Current in l <==> Current in d.links) && (Current in d.links ==> l[Current] == d.links[Current])
  {
    hide Linked, CurrentRelease;
    LinkedElsewhere(d.links, Targets(d, id)[..j], Current);
  }

  lemma PrefixDatabase(d: Disk, id: PlanId, j: nat)
    requires j <= |Targets(d, id)|
    ensures var l := Linked(d.links, Targets(d, id)[..j]);
            if j >= 4 then Db in l && l[Db] == id
            else (Db in l <==> Db in d.links) && (Db in d.links ==> l[Db] == d.links[Db])
  {
    hide Linked, CurrentRelease;
    var t := Targets(d, id)[..j];
    if j >= 4 {
      assert t[3] == (Db, id);
      LinkedThere(d.links, t, 3);
    } else {
      LinkedElsewhere(d.links, t, Db);
    }
  }

  lemma PrefixPrevious(d: Disk, id: PlanId, j: nat)
    requires j <= |Targets(d, id)|
    ensures var l, c := Linked(d.links, Targets(d, id)[..j]), CurrentRelease(d);
            if c.Some? && c.value != id && j >= 5 then Previous in l && l[Previous] == c.value
            else (Previous in l <==> Previous in d.links) && (Previous in d.links ==> l[Previous] == d.links[Previous])
  {
    hide Linked, CurrentRelease;
    var t, c := Targets(d, id)[..j], CurrentRelease(d);
    if c.Some? && c.value != id && j >= 5 {
      assert t[4] == (Previous, c.value);
      LinkedThere(d.links, t, 4);
    } else {
      LinkedElsewhere(d.links, t, Previous);
    }
  }

  lemma SwitchedAgain(d: Disk, e: Disk, id: PlanId, j: nat)
    requires j <= |Targets(d, id)| && e.links == Linked(d.links, Targets(d, id)[..j])
    ensures AgreeButPrevious(Switched(e, id), Switched(d, id))
    ensures RemembersPrevious(d, id) ==> Switched(e, id) == Switched(d, id)
  {
    LinkedPrefix(d, id, j);
    SwitchedAgrees(d, e, id);
  }

  /** Links that all activations overwrite do not matter for where activation ends. */
  lemma SwitchedAgrees(d: Disk, e: Disk, id: PlanId)
    ensures AgreeButPrevious(Switched(e, id), Switched(d, id))
    ensures (Previous in Switched(e, id) <==> Previous in Switched(d, id))
            && (Previous in Switched(d, id) ==> Switched(e, id)[Previous] == Switched(d, id)[Previous])
            ==> Switched(e, id) == Switched(d, id)
  {
    var a, b := Switched(e, id), Switched(d, id);
    forall l: LinkName | l != Previous ensures l in a && l in b && a[l] == b[l] {
      match l case DbSig => case FilesSig => case Files => case Db => case Previous => case Current =>
    }
  }

  /** Main result: crash a publish anywhere and run it again with the same inbox. The retry succeeds and serves the
      release under every link but `previous`; `previous` is right as well when the first try could tell the current
      release from the link `current`. */
  lemma PublishRetryConverges(book: Book, d: Disk, id: PlanId, order: ScanOrder, k: nat, order': ScanOrder)
    requires Inv(d, book) && NamesFixed(book, d, id) && PublishScript(d, id).ok
    requires k <= |PublishSteps(d, id, order)|
    ensures var once := Run(d, PublishSteps(d, id, order));
            var crashed := Run(d, PublishSteps(d, id, order)[..k]);
            var retried := Run(crashed, PublishSteps(crashed, id, order'));
            && PublishScript(crashed, id).ok
            && Inv(retried, book) && Served(retried, id)
            && AgreeButPrevious(retried.links, once.links)
            && (RemembersPrevious(d, id) ==> retried.links == once.links)
  {
    var crashed := Run(d, PublishSteps(d, id, order)[..k]);
    var j := CutPublish(book, d, id, order, k);
    PublishedAndPruned(book, d, id, order);
    Retry(book, d, crashed, id, order', j);
  }

  lemma Retry(book: Book, d: Disk, crashed: Disk, id: PlanId, order: ScanOrder, j: nat)
    requires Inv(d, book) && NamesFixed(book, d, id) && PublishScript(d, id).ok && Inv(crashed, book)
    requires (Extends(d, crashed) && !Committed(d, id)) || Switching(d, crashed, id, j)
    ensures var retried := Run(crashed, PublishSteps(crashed, id, order));
            && PublishScript(crashed, id).ok && Inv(retried, book) && Served(retried, id)
            && AgreeButPrevious(retried.links, Switched(d, id))
            && (RemembersPrevious(d, id) ==> retried.links == Switched(d, id))
  {
    if Switching(d, crashed, id, j) {
      SwitchedAgain(d, crashed, id, j);
      RetryCommitted(book, crashed, id, order);
    } else {
      PublishAgain(book, d, crashed, id);
      PublishedAndPruned(book, crashed, id, order);
      SameSwitched(d, crashed, id);
    }
  }

  lemma SameSwitched(d: Disk, e: Disk, id: PlanId)
    requires e.links == d.links
    ensures Switched(e, id) == Switched(d, id)
  {
  }

  lemma RetryCommitted(book: Book, d: Disk, id: PlanId, order: ScanOrder)
    requires Inv(d, book) && Committed(d, id) && Activatable(d, id) && ReadablePlan(d, id)
    ensures PublishScript(d, id) == ActivateScript(d, id) && PublishScript(d, id).ok
    ensures var e := Run(d, PublishSteps(d, id, order)); Inv(e, book) && Served(e, id) && e.links == Switched(d, id)
  {
    PublishParts(d, id, order);
    ActivateSwitches(book, d, id);
    ActivatableIsServed(book, d, id);
    ServedSame(d, Run(d, ActivateScript(d, id).steps), id);
  }

  lemma PublishedAndPruned(book: Book, d: Disk, id: PlanId, order: ScanOrder)
    requires Inv(d, book) && NamesFixed(book, d, id) && PublishScript(d, id).ok
    ensures var e := Run(d, PublishSteps(d, id, order));
            Inv(e, book) && e.links == Switched(d, id) && Served(e, id)
  {
    PublishEnds(book, d, id);
    PublishParts(d, id, order);
    if Committed(d, id) {
      RetryCommitted(book, d, id, order);
    } else {
      var script := PublishScript(d, id).steps;
      var mid := Run(d, script);
      assert ReadablePlan(mid, id);
      var prune := PruneScript(mid, order).steps;
      RunAppend(d, script, prune);
      PruneDiscards(mid, order);
      DiscardingRunThins(mid, prune);
      ThinnedSwitching(book, d, mid, Run(mid, prune), id);
    }
  }

  /** `e` ends like `d`, and has at most releases and files besides that no current or previous release needs. */
  ghost predicate SameButGarbage(d: Disk, e: Disk) {
    && e.keyring == d.keyring && e.inbox == d.inbox && e.links == d.links
    && Sub(d.releases, e.releases) && Sub(d.hot, e.hot) && Sub(d.signatures, e.signatures)
    && (forall id <- e.releases :: id in d.releases || id !in KeptReleases(e))
    && (forall file <- e.hot :: file in d.hot || file !in KeptFiles(e))
    && (forall file <- e.signatures :: file in d.signatures || file !in KeptFiles(e))
  }

  /** On disks with the same links, what is kept is the same, byte for byte. */
  lemma SameKept(book: Book, d: Disk, e: Disk)
    requires Inv(d, book) && Inv(e, book) && e.keyring == d.keyring && e.links == d.links
    ensures KeptReleases(e) == KeptReleases(d) && KeptFiles(e) == KeptFiles(d)
    ensures forall id <- KeptReleases(d) :: id in d.releases && id in e.releases && e.releases[id] == d.releases[id]
    ensures forall file <- KeptFiles(d) ::
              && file in d.hot && file in e.hot && e.hot[file] == d.hot[file]
              && file in d.signatures && file in e.signatures && e.signatures[file] == d.signatures[file]
  {
    hide Served;
    KeptIsServed(book, d);
    KeptIsServed(book, e);
    forall id <- KeptReleases(d) ensures id in d.releases && id in e.releases && e.releases[id] == d.releases[id] {
      ServedRelease(d, id);
      ServedRelease(e, id);
    }
  }

  lemma ServedRelease(d: Disk, id: PlanId)
    requires Served(d, id)
    ensures id in d.releases && d.releases[id] == ReleaseFor(d.keyring, id)
  {
  }

  /** A disk that holds just what it keeps is, but for garbage, every disk with the same links. */
  lemma SameButGarbageOf(book: Book, d: Disk, e: Disk)
    requires Inv(d, book) && Inv(e, book) && e.keyring == d.keyring && e.inbox == d.inbox && e.links == d.links
    requires d.releases.Keys == KeptReleases(d) && d.hot.Keys == KeptFiles(d) == d.signatures.Keys
    ensures SameButGarbage(d, e)
  {
    hide Inv, KeptReleases, KeptFiles;
    SameKept(book, d, e);
  }

  /** A fresh publish that runs to its end holds just what it keeps. */
  lemma PublishedHoldsKept(book: Book, d: Disk, id: PlanId, order: ScanOrder)
    requires Inv(d, book) && NamesFixed(book, d, id) && PublishScript(d, id).ok && !Committed(d, id)
    requires Lists(Run(d, PublishScript(d, id).steps), order)
    ensures var e := Run(d, PublishSteps(d, id, order));
            && Inv(e, book) && e.keyring == d.keyring && e.inbox == d.inbox
            && e.releases.Keys == KeptReleases(e) && e.hot.Keys == KeptFiles(e) == e.signatures.Keys
  {
    hide Apply, Run, PublishScript, PruneScript, KeptReleases, KeptFiles, Inv, NamesFixed, Lists, Switched, Served;
    var script := PublishScript(d, id).steps;
    var mid, e := Run(d, script), Run(d, PublishSteps(d, id, order));
    PublishEnds(book, d, id);
    PublishedAndPruned(book, d, id, order);
    RunAppend(d, script, PruneScript(mid, order).steps);
    assert KeptReleases(mid) != {} by { SwitchedKeeps(d, mid, id); }
    PruneHoldsKept(book, mid, order);
    PruneDiscards(mid, order);
    DiscardingRunThins(mid, PruneScript(mid, order).steps);
    SameKept(book, mid, e);
  }

  lemma SwitchedKeeps(d: Disk, e: Disk, id: PlanId)
    requires e.links == Switched(d, id)
    ensures id in KeptReleases(e)
  {
    assert Current in e.links && e.links[Current] == id;
  }

  /** Main result: crash a publish anywhere and run it again. Where the first try could tell the current release, the
      outcome is that of an uninterrupted publish - links, releases, packages and signatures - except for garbage. */
  lemma RetryIsSameButGarbage(book: Book, d: Disk, id: PlanId, order: ScanOrder, k: nat, order': ScanOrder)
    requires Inv(d, book) && NamesFixed(book, d, id) && PublishScript(d, id).ok && RemembersPrevious(d, id)
    requires k <= |PublishSteps(d, id, order)|
    requires !Committed(d, id) ==> Lists(Run(d, PublishScript(d, id).steps), order)
    ensures SameButGarbage(Run(d, PublishSteps(d, id, order)), Retried(d, id, order, k, order'))
  {
    hide Apply, Run, PublishScript, PublishSteps, Inv, NamesFixed, Lists, KeptReleases, KeptFiles, SameButGarbage;
    PublishRetryConverges(book, d, id, order, k, order');
    RetryKeepsInbox(book, d, id, order, k, order');
    if Committed(d, id) {
      CommittedRetry(book, d, id, order, k, order');
      SameOutsideIsSame(Run(d, PublishSteps(d, id, order)), Retried(d, id, order, k, order'));
    } else {
      PublishedHoldsKept(book, d, id, order);
      SameButGarbageOf(book, Run(d, PublishSteps(d, id, order)), Retried(d, id, order, k, order'));
    }
  }

  /** Exactly when every crashed publish ends, after a retry, as if nothing had happened, but for garbage. */
  lemma RetrySameExactly(book: Book, d: Disk, id: PlanId, order: ScanOrder, order': ScanOrder)
    requires Inv(d, book) && NamesFixed(book, d, id) && PublishScript(d, id).ok
    requires !Committed(d, id) ==> Lists(Run(d, PublishScript(d, id).steps), order)
    ensures RemembersPrevious(d, id) <==>
              forall k :: 0 <= k <= |PublishSteps(d, id, order)| ==>
                SameButGarbage(Run(d, PublishSteps(d, id, order)), Retried(d, id, order, k, order'))
  {
    hide Run, PublishScript, PublishSteps, Inv, NamesFixed, Lists, Retried, RemembersPrevious;
    if RemembersPrevious(d, id) {
      forall k | 0 <= k <= |PublishSteps(d, id, order)|
        ensures SameButGarbage(Run(d, PublishSteps(d, id, order)), Retried(d, id, order, k, order'))
      {
        RetryIsSameButGarbage(book, d, id, order, k, order');
      }
    } else {
      var k := RetryLosesPrevious(book, d, id, order, order');
    }
  }

  lemma SameOutsideIsSame(d: Disk, e: Disk)
    requires SameOutsideLinks(d, e) && e.links == d.links
    ensures SameButGarbage(d, e)
  {
  }

  /** No step writes the keyring or the inbox. */
  lemma {:induction false} KeyringAndInboxStay(d: Disk, steps: seq<Step>)
    ensures Run(d, steps).keyring == d.keyring && Run(d, steps).inbox == d.inbox
  {
    hide Apply;
    if |steps| > 0 {
      KeyringAndInboxStay(d, steps[..|steps| - 1]);
      KeyringAndInboxStep(Run(d, steps[..|steps| - 1]), steps[|steps| - 1]);
    }
  }

  lemma KeyringAndInboxStep(d: Disk, s: Step)
    ensures Apply(d, s).keyring == d.keyring && Apply(d, s).inbox == d.inbox
  {
  }

  lemma RetryKeepsInbox(book: Book, d: Disk, id: PlanId, order: ScanOrder, k: nat, order': ScanOrder)
    requires k <= |PublishSteps(d, id, order)|
    ensures var once, retried := Run(d, PublishSteps(d, id, order)), Retried(d, id, order, k, order');
            once.keyring == d.keyring == retried.keyring && once.inbox == d.inbox == retried.inbox
  {
    hide Run, PublishSteps;
    var crashed := Run(d, PublishSteps(d, id, order)[..k]);
    KeyringAndInboxStay(d, PublishSteps(d, id, order));
    KeyringAndInboxStay(d, PublishSteps(d, id, order)[..k]);
    KeyringAndInboxStay(crashed, PublishSteps(crashed, id, order'));
  }

  /** A release that was committed before: both runs touch links only. */
  lemma CommittedRetry(book: Book, d: Disk, id: PlanId, order: ScanOrder, k: nat, order': ScanOrder)
    requires Inv(d, book) && NamesFixed(book, d, id) && PublishScript(d, id).ok && Committed(d, id)
    requires k <= |PublishSteps(d, id, order)|
    ensures SameOutsideLinks(Run(d, PublishSteps(d, id, order)), Retried(d, id, order, k, order'))
  {
    hide Apply, Run, PublishScript, PublishSteps, Inv, NamesFixed, Activatable, LinkSteps, Targets;
    PublishParts(d, id, order);
    TargetsServed(book, d, id);
    LinksRun(d, Targets(d, id));
    var j := LinksCut(d, Targets(d, id), k);
    var crashed := Run(d, PublishSteps(d, id, order)[..k]);
    PublishRetryConverges(book, d, id, order, k, order');
    assert crashed.releases == d.releases;
    PublishIsSafe(book, d, id, order, k);
    PublishParts(crashed, id, order');
    TargetsServed(book, crashed, id);
    LinksRun(crashed, Targets(crashed, id));
  }

  /** The garbage goes with the next complete pruning: then nothing tells that there was a crash. */
  lemma GarbageGoes(book: Book, d: Disk, id: PlanId, order: ScanOrder, k: nat, order': ScanOrder, next: ScanOrder)
    requires Inv(d, book) && NamesFixed(book, d, id) && PublishScript(d, id).ok && RemembersPrevious(d, id)
    requires k <= |PublishSteps(d, id, order)| && !Committed(d, id)
    requires Lists(Run(d, PublishScript(d, id).steps), order) && Lists(Retried(d, id, order, k, order'), next)
    ensures var once, retried := Run(d, PublishSteps(d, id, order)), Retried(d, id, order, k, order');
            var e := Run(retried, PruneScript(retried, next).steps);
            && e.links == once.links && e.releases == once.releases
            && e.hot == once.hot && e.signatures == once.signatures
  {
    hide Apply, Run, PublishScript, PublishSteps, PruneScript, Inv, NamesFixed, Lists, KeptReleases, KeptFiles,
        Switched, SameButGarbage, Retried;
    var once, retried := Run(d, PublishSteps(d, id, order)), Retried(d, id, order, k, order');
    var steps := PruneScript(retried, next).steps;
    var e := Run(retried, steps);
    RetriedFacts(book, d, id, order, k, order');
    PublishedHoldsKept(book, d, id, order);
    PruneHoldsKept(book, retried, next);
    PruneDiscards(retried, next);
    DiscardingRunThins(retried, steps);
    SameKept(book, once, retried);
  }

  lemma RetriedFacts(book: Book, d: Disk, id: PlanId, order: ScanOrder, k: nat, order': ScanOrder)
    requires Inv(d, book) && NamesFixed(book, d, id) && PublishScript(d, id).ok && RemembersPrevious(d, id)
    requires k <= |PublishSteps(d, id, order)|
    ensures var once, retried := Run(d, PublishSteps(d, id, order)), Retried(d, id, order, k, order');
            && Inv(retried, book) && retried.links == once.links && retried.keyring == once.keyring == d.keyring
            && id in KeptReleases(retried)
  {
    hide Apply, Run, PublishScript, PublishSteps, Inv, NamesFixed, KeptReleases;
    PublishRetryConverges(book, d, id, order, k, order');
    PublishedAndPruned(book, d, id, order);
    RetryKeepsInbox(book, d, id, order, k, order');
    SwitchedKeeps(d, Retried(d, id, order, k, order'), id);
  }

  /** The disk after a publish that is cut after `k` calls and then run again. */
  function Retried(d: Disk, id: PlanId, order: ScanOrder, k: nat, order': ScanOrder): Disk
    requires k <= |PublishSteps(d, id, order)|
  {
    var crashed := Run(d, PublishSteps(d, id, order)[..k]);
    Run(crashed, PublishSteps(crashed, id, order'))
  }

  lemma {:induction false} LinkStepsPrefix(d: Disk, targets: seq<(LinkName, PlanId)>, j: nat)
    requires j <= |targets|
    ensures LinkSteps(d, targets[..j]) <= LinkSteps(d, targets)
  {
    if j < |targets| {
      var before := targets[..|targets| - 1];
      assert targets[..j] == before[..j];
      LinkStepsPrefix(d, before, j);
    } else {
      assert targets[..j] == targets;
    }
  }

  lemma FirstLinks(d: Disk, targets: seq<(LinkName, PlanId)>, j: nat) returns (k: nat)
    requires DistinctLinks(targets) && j <= |targets|
    ensures k <= |LinkSteps(d, targets)|
    ensures var e := Run(d, LinkSteps(d, targets)[..k]);
        SameOutsideLinks(d, e) && e.links == Linked(d.links, targets[..j])
  {
    LinkStepsPrefix(d, targets, j);
    LinksRun(d, targets[..j]);
    k := |LinkSteps(d, targets[..j])|;
    assert LinkSteps(d, targets)[..k] == LinkSteps(d, targets[..j]);
  }

  lemma DatabaseSwapped(book: Book, d: Disk, mid: Disk, id: PlanId) returns (k: nat)
    requires Inv(mid, book) && Activatable(mid, id) && ReadablePlan(mid, id) && mid.links == d.links
    ensures k <= |LinkSteps(mid, Targets(mid, id))|
    ensures var e := Run(mid, LinkSteps(mid, Targets(mid, id))[..k]);
            Inv(e, book) && Switching(d, e, id, 4) && SameOutsideLinks(mid, e)
  {
    TargetsServed(book, mid, id);
    k := FirstLinks(mid, Targets(mid, id), 4);
    SwitchingFrom(book, d, mid, Run(mid, LinkSteps(mid, Targets(mid, id))[..k]), id, 4);
  }

  lemma CutInTheMiddle(d: Disk, a: seq<Step>, b: seq<Step>, c: seq<Step>, k: nat)
    requires k <= |b|
    ensures |a| + k <= |a + b + c| && Run(d, (a + b + c)[..|a| + k]) == Run(Run(d, a), b[..k])
  {
    assert (a + b + c)[..|a| + k] == a + b[..k];
    RunAppend(d, a, b[..k]);
  }

  /** Nothing is lost, and only release `id` is new. */
  ghost predicate Grown(d: Disk, e: Disk, id: PlanId) {
    && e.keyring == d.keyring && e.inbox == d.inbox
    && d.hot.Keys <= e.hot.Keys && d.signatures.Keys <= e.signatures.Keys
    && e.releases - {id} == d.releases - {id}
  }

  lemma FreshParts(book: Book, d: Disk, id: PlanId, order: ScanOrder)
    returns (committed: seq<Step>, mid: Disk, links: seq<Step>, prune: seq<Step>)
    requires Inv(d, book) && NamesFixed(book, d, id) && PublishScript(d, id).ok && !Committed(d, id)
    ensures PublishSteps(d, id, order) == committed + links + prune
    ensures mid == Run(d, committed) && links == LinkSteps(mid, Targets(mid, id))
    ensures Inv(mid, book) && Activatable(mid, id) && ReadablePlan(mid, id) && mid.links == d.links && Grown(d, mid, id)
  {
    hide Apply, Run, PublishSteps, PublishScript, PrepareScript, PruneScript, Inv, NamesFixed, Activatable, Targets,
        LinkSteps, Served, ReleaseFor, Committed, Vacant;
    PublishParts(d, id, order);
    CommitActivates(book, d, id);
    committed := PrepareScript(d, id).steps + [Commit(id)];
    mid := Run(d, committed);
    links := LinkSteps(mid, Targets(mid, id));
    prune := PruneScript(Run(d, committed + links), order).steps;
  }

  lemma CutAfterDatabase(book: Book, d: Disk, id: PlanId, order: ScanOrder) returns (k: nat, e: Disk)
    requires Inv(d, book) && NamesFixed(book, d, id) && PublishScript(d, id).ok
    ensures k <= |PublishSteps(d, id, order)| && e == Run(d, PublishSteps(d, id, order)[..k])
    ensures Inv(e, book) && Switching(d, e, id, 4) && Grown(d, e, id)
  {
    hide Apply, Run, PublishSteps, PublishScript, PrepareScript, Inv, Activatable, Switching, LinkSteps;
    PublishParts(d, id, order);
    if Committed(d, id) {
      k := DatabaseSwapped(book, d, d, id);
      e := Run(d, PublishSteps(d, id, order)[..k]);
    } else {
      var committed, mid, links, prune := FreshParts(book, d, id, order);
      var j := DatabaseSwapped(book, d, mid, id);
      e := Run(mid, links[..j]);
      k := |committed| + j;
      CutInTheMiddle(d, committed, links, prune, j);
    }
  }

  /** Without the `current` link, a crash right after the database link is swapped makes the retry lose `previous`. */
  lemma RetryLosesPrevious(book: Book, d: Disk, id: PlanId, order: ScanOrder, order': ScanOrder) returns (k: nat)
    requires Inv(d, book) && NamesFixed(book, d, id) && PublishScript(d, id).ok && !RemembersPrevious(d, id)
    ensures k <= |PublishSteps(d, id, order)|
    ensures Retried(d, id, order, k, order').links != Run(d, PublishSteps(d, id, order)).links
  {
    PublishedAndPruned(book, d, id, order);
    var crashed;
    k, crashed := CutAfterDatabase(book, d, id, order);
    RetryCommitted(book, crashed, id, order');
    LinkedPrefix(d, id, 4);
    PreviousDiffers(d, crashed, id);
  }

  lemma PreviousDiffers(d: Disk, e: Disk, id: PlanId)
    requires !RemembersPrevious(d, id) && CurrentRelease(e) == Some(id)
    requires (Previous in e.links <==> Previous in d.links)
        && (Previous in d.links ==> e.links[Previous] == d.links[Previous])
    ensures Switched(e, id) != Switched(d, id)
  {
    assert Previous in Switched(d, id) && Switched(d, id)[Previous] == d.links[Db];
    assert Previous in Switched(e, id) <==> Previous in d.links;
  }

  /** Exactly when a crashed publish always converges: the first try can tell which release was current. */
  lemma RetryConvergesExactly(book: Book, d: Disk, id: PlanId, order: ScanOrder, order': ScanOrder)
    requires Inv(d, book) && NamesFixed(book, d, id) && PublishScript(d, id).ok
    ensures RemembersPrevious(d, id) <==>
              forall k :: 0 <= k <= |PublishSteps(d, id, order)| ==>
                Retried(d, id, order, k, order').links == Run(d, PublishSteps(d, id, order)).links
  {
    if RemembersPrevious(d, id) {
      forall k | 0 <= k <= |PublishSteps(d, id, order)|
        ensures Retried(d, id, order, k, order').links == Run(d, PublishSteps(d, id, order)).links
      {
        PublishRetryConverges(book, d, id, order, k, order');
      }
    } else {
      var k := RetryLosesPrevious(book, d, id, order, order');
    }
  }

  // ---------------------------------------------------------------- pruning is exact

  function Without(r: ReleaseDirectory, inside: seq<ReleaseFile>): ReleaseDirectory {
    map f | f in r && f !in inside :: r[f]
  }

  function Emptied(d: Disk, id: PlanId, r: ReleaseDirectory, inside: seq<ReleaseFile>): Disk {
    d.(releases := d.releases[id := Without(r, inside)])
  }

  lemma {:induction false} UnlinkRun(d: Disk, id: PlanId, r: ReleaseDirectory, inside: seq<ReleaseFile>)
    requires id in d.releases && d.releases[id] == r && NoRepeats(inside)
    ensures Runs(d, UnlinkSteps(r, id, inside), Emptied(d, id, r, inside))
  {
    if |inside| == 0 {
      assert Without(r, inside) == r && d.releases[id := r] == d.releases;
    } else {
      var before, f := inside[..|inside| - 1], inside[|inside| - 1];
      UnlinkRun(d, id, r, before);
      assert f !in before && before + [f] == inside;
      if f in r {
        UnlinkOne(d, id, f, r, before);
        RunsAppend(d, UnlinkSteps(r, id, before), Emptied(d, id, r, before), [UnlinkReleaseFile(id, f)],
            Emptied(d, id, r, inside));
      } else {
        assert UnlinkSteps(r, id, inside) == UnlinkSteps(r, id, before);
        assert Without(r, before) == Without(r, inside);
      }
    }
  }

  lemma UnlinkOne(d: Disk, id: PlanId, f: ReleaseFile, r: ReleaseDirectory, before: seq<ReleaseFile>)
    requires f in r && f !in before
    ensures Runs(Emptied(d, id, r, before), [UnlinkReleaseFile(id, f)], Emptied(d, id, r, before + [f]))
  {
    var e := Emptied(d, id, r, before);
    RunOne(e, UnlinkReleaseFile(id, f));
    assert Without(r, before) - {f} == Without(r, before + [f]);
    assert e.releases[id := Without(r, before + [f])] == d.releases[id := Without(r, before + [f])];
  }

  lemma RemoveWhole(d: Disk, id: PlanId, inside: seq<ReleaseFile>)
    requires id in d.releases && NoRepeats(inside) && forall f :: f in inside
    ensures Runs(d, UnlinkSteps(d.releases[id], id, inside) + [RemoveReleaseDirectory(id)],
                 d.(releases := d.releases - {id}))
  {
    UnlinkRun(d, id, d.releases[id], inside);
    assert Without(d.releases[id], inside) == map[];
    var e := d.(releases := d.releases[id := map[]]);
    RunOne(e, RemoveReleaseDirectory(id));
    assert e.releases - {id} == d.releases - {id};
    RunsAppend(d, UnlinkSteps(d.releases[id], id, inside), e, [RemoveReleaseDirectory(id)],
        d.(releases := d.releases - {id}));
  }

  function ReleasesAfter(d: Disk, ids: seq<PlanId>): map<PlanId, ReleaseDirectory> {
    map id | id in d.releases && (id in KeptReleases(d) || id !in ids) :: d.releases[id]
  }

  lemma {:induction false} RemoveReleasesRun(d: Disk, order: ScanOrder, ids: seq<PlanId>)
    requires NoRepeats(ids) && NoRepeats(order.inside) && forall f :: f in order.inside
    ensures Runs(d, RemoveReleasesSteps(d, order, ids), d.(releases := ReleasesAfter(d, ids)))
  {
    if |ids| == 0 {
      assert ReleasesAfter(d, ids) == d.releases;
    } else {
      var before, id := ids[..|ids| - 1], ids[|ids| - 1];
      RemoveReleasesRun(d, order, before);
      var e := d.(releases := ReleasesAfter(d, before));
      assert id !in before;
      ReleasesPush(d, before, id);
      assert before + [id] == ids;
      if id in d.releases && id !in KeptReleases(d) {
        RemoveWhole(e, id, order.inside);
        RunsAppend(d, RemoveReleasesSteps(d, order, before), e,
                   UnlinkSteps(d.releases[id], id, order.inside) + [RemoveReleaseDirectory(id)],
                   d.(releases := ReleasesAfter(d, ids)));
      } else {
        assert RemoveReleasesSteps(d, order, ids) == RemoveReleasesSteps(d, order, before);
      }
    }
  }

  lemma ReleasesPush(d: Disk, before: seq<PlanId>, id: PlanId)
    ensures ReleasesAfter(d, before + [id]) ==
              if id in d.releases && id !in KeptReleases(d) then ReleasesAfter(d, before) - {id}
                  else ReleasesAfter(d, before)
  {
  }

  function HotAfter(d: Disk, entries: seq<Entry>): map<string, PackageFile> {
    map file | file in d.hot && (file in KeptFiles(d) || Package(file) !in entries) :: d.hot[file]
  }

  function SignaturesAfter(d: Disk, entries: seq<Entry>): map<string, PackageFile> {
    map file | file in d.signatures && (file in KeptFiles(d) || Signature(file) !in entries) :: d.signatures[file]
  }

  lemma {:induction false} RemoveEntriesRun(d: Disk, e: Disk, entries: seq<Entry>)
    requires NoRepeats(entries) && e.hot == d.hot && e.signatures == d.signatures
    requires forall entry <- entries :: if entry.Package? then entry.file in d.hot else entry.file in d.signatures
    ensures Runs(e, RemoveEntriesSteps(d, entries), Cleared(d, e, entries))
  {
    hide Apply;
    if |entries| == 0 {
      assert HotAfter(d, entries) == d.hot && SignaturesAfter(d, entries) == d.signatures;
    } else {
      var before, entry := entries[..|entries| - 1], entries[|entries| - 1];
      RemoveEntriesRun(d, e, before);
      assert entry !in before;
      EntriesPush(d, before, entry);
      assert entries == before + [entry];
      if entry.file in KeptFiles(d) {
        assert RemoveEntriesSteps(d, entries) == RemoveEntriesSteps(d, before);
      } else {
        RemoveEntry(d, e, before, entry);
        RunsAppend(e, RemoveEntriesSteps(d, before), Cleared(d, e, before),
                   if entry.Package? then [RemovePackage(entry.file)] else [RemoveSignature(entry.file)],
                   Cleared(d, e, entries));
      }
    }
  }

  function Cleared(d: Disk, e: Disk, entries: seq<Entry>): Disk {
    e.(hot := HotAfter(d, entries), signatures := SignaturesAfter(d, entries))
  }

  lemma EntriesPush(d: Disk, before: seq<Entry>, entry: Entry)
    ensures var gone := entry.file !in KeptFiles(d);
            && HotAfter(d, before + [entry]) ==
                 (if gone && entry.Package? then HotAfter(d, before) - {entry.file} else HotAfter(d, before))
            && SignaturesAfter(d, before + [entry]) ==
                 (if gone && entry.Signature? then SignaturesAfter(d, before) - {entry.file}
                     else SignaturesAfter(d, before))
  {
  }

  lemma RemoveEntry(d: Disk, e: Disk, before: seq<Entry>, entry: Entry)
    requires entry.file !in KeptFiles(d) && entry !in before
    requires if entry.Package? then entry.file in d.hot else entry.file in d.signatures
    ensures Runs(Cleared(d, e, before), if entry.Package? then [RemovePackage(entry.file)]
        else [RemoveSignature(entry.file)],
                 Cleared(d, e, before + [entry]))
  {
    RunOne(Cleared(d, e, before), if entry.Package? then RemovePackage(entry.file) else RemoveSignature(entry.file));
    EntriesPush(d, before, entry);
  }

  /** The disk with only the releases of `current` and `previous`, and only the package files and signatures that their
      manifests reference. */
  function Pruned(d: Disk): Disk
    requires KeptReadable(d)
  {
    d.(releases := map id | id in KeptReleases(d) :: d.releases[id],
       hot := map file | file in d.hot && file in KeptFiles(d) :: d.hot[file],
       signatures := map file | file in d.signatures && file in KeptFiles(d) :: d.signatures[file])
  }

  /** A pruning that runs to its end does exactly this, and no call of it fails. It does nothing at all when there is
      nothing to go by, or when a release it would go by has no manifest. */
  lemma PruneIsExact(d: Disk, order: ScanOrder)
    requires Lists(d, order)
    ensures Executable(d, PruneScript(d, order).steps)
    ensures Run(d, PruneScript(d, order).steps) ==
              if KeptReleases(d) != {} && KeptReadable(d) then Pruned(d) else d
  {
    if KeptReleases(d) != {} && KeptReadable(d) {
      RemoveReleasesRun(d, order, order.releases);
      var mid := d.(releases := ReleasesAfter(d, order.releases));
      forall entry <- order.entries
        ensures if entry.Package? then entry.file in d.hot else entry.file in d.signatures
      {
        match entry case Package(_) => case Signature(_) =>
      }
      RemoveEntriesRun(d, mid, order.entries);
      RunsAppend(d, RemoveReleasesSteps(d, order, order.releases), mid,
                 RemoveEntriesSteps(d, order.entries), Cleared(d, mid, order.entries));
      ClearedExactly(d, order);
    }
  }

  lemma ClearedExactly(d: Disk, order: ScanOrder)
    requires Lists(d, order) && KeptReadable(d)
    ensures ReleasesAfter(d, order.releases) == Pruned(d).releases
    ensures HotAfter(d, order.entries) == Pruned(d).hot && SignaturesAfter(d, order.entries) == Pruned(d).signatures
  {
  }

  /** Where all that is kept is in place, what is left is all that is kept. */
  lemma PruneHoldsKept(book: Book, d: Disk, order: ScanOrder)
    requires Inv(d, book) && Lists(d, order) && KeptReleases(d) != {}
    ensures var e := Run(d, PruneScript(d, order).steps);
            && e.releases.Keys == KeptReleases(d) && e.links == d.links
            && e.hot.Keys == KeptFiles(d) && e.signatures.Keys == KeptFiles(d)
  {
    hide Run, PruneScript, KeptFiles, KeptReleases, Inv, Lists, Served;
    KeptIsServed(book, d);
    PruneIsExact(d, order);
  }

  lemma KeptIsServed(book: Book, d: Disk)
    requires Inv(d, book)
    ensures KeptReadable(d) && forall id <- KeptReleases(d) :: Served(d, id)
    ensures forall file <- KeptFiles(d) :: file in d.hot && file in d.signatures
  {
    forall file <- KeptFiles(d) ensures file in d.hot && file in d.signatures {
      var id :| id in KeptReleases(d) && id in d.releases && file in ReferencedFiles(d.releases[id]);
      assert Served(d, id);
      var m := d.releases[id][Manifest].manifest;
      assert m.artifacts == id.plan.artifacts && m.keyring == d.keyring.record;
      assert exists a :: a in id.plan.artifacts + [d.keyring.record] && a.file == file;
    }
  }

  /** Exactly when a pruning is safe at every cut: there is nothing to go by, or the links stay within what is kept.
      This is about the function alone; the signer calls it only after all links are switched, where the condition
      holds. */
  lemma PruneIsSafeExactly(book: Book, d: Disk, order: ScanOrder)
    requires Inv(d, book) && Lists(d, order)
    ensures PruneAllowed(d) <==>
              forall k :: 0 <= k <= |PruneScript(d, order).steps| ==> Safe(Run(d, PruneScript(d, order).steps[..k]))
  {
    var steps := PruneScript(d, order).steps;
    if PruneAllowed(d) {
      forall k | 0 <= k <= |steps| ensures Safe(Run(d, steps[..k])) {
        PruneIsSafe(book, d, order, k);
      }
    } else {
      PruneHoldsKept(book, d, order);
      assert steps[..|steps|] == steps;
      var link :| link in d.links && d.links[link] !in KeptReleases(d);
      assert !Served(Run(d, steps), Run(d, steps).links[link]);
    }
  }

  // ---------------------------------------------------------------- rollback

  /** The four repository links agree with `current`. */
  predicate Settled(d: Disk) {
    && Current in d.links
    && forall link <- [DbSig, FilesSig, Files, Db] :: link in d.links && d.links[link] == d.links[Current]
  }

  /** Activating the current release, where the signer's checks let it, changes no link exactly when the links are
      settled. */
  lemma ActivateCurrentIsIdle(d: Disk)
    requires Current in d.links && ActivateScript(d, d.links[Current]).ok
    ensures Run(d, ActivateScript(d, d.links[Current]).steps).links == d.links <==> Settled(d)
  {
    hide Apply, Run, Activatable, LinkSteps, Settled, Switched;
    ActivatedLinks(d, d.links[Current]);
    SwitchedToCurrent(d);
  }

  lemma SwitchedToCurrent(d: Disk)
    requires Current in d.links
    ensures Switched(d, d.links[Current]) == d.links <==> Settled(d)
  {
    var id := d.links[Current];
    var e := Switched(d, id);
    assert e[DbSig] == id && e[FilesSig] == id && e[Files] == id && e[Db] == id;
    if Settled(d) {
      assert DbSig in [DbSig, FilesSig, Files, Db] && FilesSig in [DbSig, FilesSig, Files, Db]
        && Files in [DbSig, FilesSig, Files, Db] && Db in [DbSig, FilesSig, Files, Db];
      assert forall link <- e :: link in d.links && e[link] == d.links[link];
    }
  }

  /** An uninterrupted rollback puts the previous release under every link and remembers the one it left. */
  lemma RollbackSwaps(d: Disk)
    requires RollbackScript(d).ok && Current in d.links
    ensures var e := Run(d, RollbackScript(d).steps);
            && SameOutsideLinks(d, e) && Settled(e) && Current in e.links
            && e.links[Current] == d.links[Previous] && Previous in e.links && e.links[Previous] == d.links[Current]
  {
    hide Apply, Run, Activatable, LinkSteps, Settled, Switched;
    var id := d.links[Previous];
    ActivatedLinks(d, id);
    SwitchedSettles(d, Run(d, RollbackScript(d).steps), id);
  }

  lemma SwitchedSettles(d: Disk, e: Disk, id: PlanId)
    requires Current in d.links && Previous in d.links && d.links[Previous] == id && e.links == Switched(d, id)
    ensures Settled(e) && Current in e.links && e.links[Current] == id
    ensures Previous in e.links && e.links[Previous] == d.links[Current]
  {
  }

  /** A second rollback is let through exactly when the release that was left may be activated; then the two restore
      every link exactly when the links were settled. */
  lemma RollbackTwice(d: Disk)
    requires RollbackScript(d).ok && Current in d.links
    ensures var once := Run(d, RollbackScript(d).steps);
            && (RollbackScript(once).ok <==> Activatable(d, d.links[Current]))
            && (RollbackScript(once).ok ==>
                  (Run(once, RollbackScript(once).steps).links == d.links <==> Settled(d)))
  {
    hide Run, ActivateScript, SameOutsideLinks, Settled, Activatable;
    RollbackSwaps(d);
    var once := Run(d, RollbackScript(d).steps);
    SameChecks(d, once, d.links[Current]);
    SameScript(once, d.links[Current]);
    if RollbackScript(once).ok {
      RollbackSwaps(once);
      var twice := Run(once, RollbackScript(once).steps);
      SettledByLinks(twice, d);
      if Settled(d) {
        SettledLinks(twice, d);
      }
    }
  }

  lemma SettledByLinks(a: Disk, b: Disk)
    ensures a.links == b.links ==> Settled(a) == Settled(b)
  {
  }

  lemma SameChecks(d: Disk, e: Disk, id: PlanId)
    requires SameOutsideLinks(d, e)
    ensures Activatable(e, id) == Activatable(d, id)
  {
  }

  /** Where names fix contents, the signer's checks let every linked release through. */
  lemma LinkedMayActivate(book: Book, d: Disk)
    requires Inv(d, book)
    ensures forall link <- d.links :: ActivateScript(d, d.links[link]).ok && Activatable(d, d.links[link])
    ensures Previous in d.links ==> RollbackScript(d).ok
  {
    hide Activatable, LinkSteps, Targets;
    forall link <- d.links ensures Activatable(d, d.links[link]) { ActivatableIsServed(book, d, d.links[link]); }
  }

  lemma SameScript(d: Disk, id: PlanId)
    ensures ActivateScript(d, id).ok == Activatable(d, id)
  {
  }

  lemma SettledLinks(a: Disk, b: Disk)
    requires Settled(a) && Settled(b) && a.links[Current] == b.links[Current]
    requires Previous in a.links && Previous in b.links && a.links[Previous] == b.links[Previous]
    ensures a.links == b.links
  {
    assert DbSig in [DbSig, FilesSig, Files, Db] && FilesSig in [DbSig, FilesSig, Files, Db]
      && Files in [DbSig, FilesSig, Files, Db] && Db in [DbSig, FilesSig, Files, Db];
    forall link: LinkName ensures link in a.links && link in b.links && a.links[link] == b.links[link] {
      match link case DbSig => case FilesSig => case Files => case Db => case Previous => case Current =>
    }
  }
}
