/** Rows of the server's database.

    A table is the sequence of its rows in insertion order, and a row's position stands for its id: creation times
    come from a clock whose values are distinct and only grow, so "the newest" is the last row that qualifies. */
module Store {
  import opened Protocol

  datatype RevisionState = PendingReview | ManualReview | Approved | Rejected | Superseded

  datatype Resolution = Official | Aur | NeedsSelection | Unknown

  datatype Dependency = Dependency(name: string, state: Resolution, target: Option<string>)

  datatype Revision = Revision(
    base: string, aurCommit: string, vcsCommit: string, tree: string, outputs: seq<string>,
    dependencies: seq<Dependency>, baseline: Option<nat>, state: RevisionState, decidedAt: Option<nat>)

  predicate Open(state: RevisionState) {
    state == PendingReview || state == ManualReview
  }

  /** The newest approved revision of a package base. */
  function LatestApproved(revisions: seq<Revision>, base: string): (r: Option<nat>)
    ensures r.Some? ==> r.value < |revisions| && revisions[r.value].base == base && revisions[r.value].state == Approved
    ensures forall i :: 0 <= i < |revisions| && (r.Some? ==> r.value < i) ==>
              !(revisions[i].base == base && revisions[i].state == Approved)
  {
    if |revisions| == 0 then None else
    var last := revisions[|revisions| - 1];
    if last.base == base && last.state == Approved then Some(|revisions| - 1)
    else LatestApproved(revisions[..|revisions| - 1], base)
  }

  /** The newest revision of a package base that is still under review. */
  function LatestOpen(revisions: seq<Revision>, base: string): (r: Option<nat>)
    ensures r.Some? ==> r.value < |revisions| && revisions[r.value].base == base && Open(revisions[r.value].state)
    ensures forall i :: 0 <= i < |revisions| && (r.Some? ==> r.value < i) ==>
              !(revisions[i].base == base && Open(revisions[i].state))
  {
    if |revisions| == 0 then None else
    var last := revisions[|revisions| - 1];
    if last.base == base && Open(last.state) then Some(|revisions| - 1)
    else LatestOpen(revisions[..|revisions| - 1], base)
  }
}
