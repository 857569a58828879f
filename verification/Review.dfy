/** How a revision comes to be approved: insertion, the 2+1 agent rule, human decisions, and what every run keeps. */
module Review {
  import opened Protocol
  import opened Store

  // ---------------------------------------------------------------- the 2+1 rule

  datatype Verdict = Approve | Reject | Error
  datatype LowStage = LowsApproved | EscalateHigh
  datatype Outcome = OutcomeApproved | OutcomeManual

  function AfterLows(first: Verdict, second: Verdict): LowStage {
    if first == Approve && second == Approve then LowsApproved else EscalateHigh
  }

  function Decide(firstTime: bool, first: Verdict, second: Verdict, high: Option<Verdict>): Outcome {
    var agentsApprove := match AfterLows(first, second)
      case LowsApproved => true
      case EscalateHigh => high == Some(Approve);
    if agentsApprove && !firstTime then OutcomeApproved else OutcomeManual
  }

  // ---------------------------------------------------------------- state

  datatype Kind = Scan | Reuse | Agent | Human
  datatype Role = Low | High

  /** `source` is the revision whose review a reuse row takes over. */
  datatype ReviewRow = ReviewRow(revision: nat, kind: Kind, role: Option<Role>, verdict: Verdict, source: Option<nat>)

  /** `now` is the next reading of the clock; `inFlight` is the revision the agents are reading. */
  datatype Desk = Desk(revisions: seq<Revision>, reviews: seq<ReviewRow>, now: nat, inFlight: Option<nat>)

  /** What is fetched for a package base; `blocked` is the verdict of the deterministic scan. */
  datatype Snapshot = Snapshot(
    base: string, aurCommit: string, vcsCommit: string, tree: string, outputs: seq<string>,
    dependencies: seq<Dependency>, blocked: bool)

  // ---------------------------------------------------------------- what each handler does

  predicate Known(revisions: seq<Revision>, s: Snapshot) {
    exists r <- revisions :: r.base == s.base && r.aurCommit == s.aurCommit && r.vcsCommit == s.vcsCommit
  }

  /** The newest approved revision with the same tree. */
  function Reusable(revisions: seq<Revision>, base: string, tree: string): (r: Option<nat>)
    ensures r.Some? ==> r.value < |revisions| && revisions[r.value].base == base
                        && revisions[r.value].tree == tree && revisions[r.value].state == Approved
  {
    if |revisions| == 0 then None else
    var last := revisions[|revisions| - 1];
    if last.base == base && last.tree == tree && last.state == Approved then Some(|revisions| - 1)
    else Reusable(revisions[..|revisions| - 1], base, tree)
  }

  function Replaced(r: Revision, base: string): Revision {
    if r.base == base && Open(r.state) then r.(state := Superseded) else r
  }

  function Supersede(revisions: seq<Revision>, base: string): (r: seq<Revision>)
    ensures |r| == |revisions| && forall i :: 0 <= i < |r| ==> r[i] == Replaced(revisions[i], base)
  {
    if |revisions| == 0 then [] else
    Supersede(revisions[..|revisions| - 1], base) + [Replaced(revisions[|revisions| - 1], base)]
  }

  function InsertedState(revisions: seq<Revision>, s: Snapshot): RevisionState {
    if s.blocked then Rejected
    else if Reusable(revisions, s.base, s.tree).Some? then Approved
    else PendingReview
  }

  function NewRow(d: Desk, s: Snapshot): Revision {
    var state := InsertedState(d.revisions, s);
    Revision(s.base, s.aurCommit, s.vcsCommit, s.tree, s.outputs, s.dependencies,
             LatestApproved(d.revisions, s.base), state, if state == PendingReview then None else Some(d.now))
  }

  function InsertionRows(d: Desk, s: Snapshot): seq<ReviewRow> {
    var id := |d.revisions|;
    var source := Reusable(d.revisions, s.base, s.tree);
    [ReviewRow(id, Scan, None, if s.blocked then Reject else Approve, None)]
      + if !s.blocked && source.Some? then [ReviewRow(id, Reuse, None, Approve, source)] else []
  }

  /** A new revision replaces those of its package that are still under review. */
  function Insert(d: Desk, s: Snapshot): Desk {
    if Known(d.revisions, s) then d else
    d.(revisions := Supersede(d.revisions, s.base) + [NewRow(d, s)],
       reviews := d.reviews + InsertionRows(d, s), now := d.now + 1)
  }

  /** The oldest revision that waits for review. */
  function NextPending(revisions: seq<Revision>, from: nat): (r: Option<nat>)
    requires from <= |revisions|
    ensures r.Some? ==> from <= r.value < |revisions| && revisions[r.value].state == PendingReview
    ensures forall i :: from <= i < (if r.Some? then r.value else |revisions|) ==> revisions[i].state != PendingReview
    decreases |revisions| - from
  {
    if from == |revisions| then None
    else if revisions[from].state == PendingReview then Some(from)
    else NextPending(revisions, from + 1)
  }

  function WithoutAgents(reviews: seq<ReviewRow>, id: nat): (r: seq<ReviewRow>)
    ensures forall row :: row in r <==> row in reviews && !(row.kind == Agent && row.revision == id)
  {
    if |reviews| == 0 then [] else
    var last := reviews[|reviews| - 1];
    WithoutAgents(reviews[..|reviews| - 1], id) + if last.kind == Agent && last.revision == id then [] else [last]
  }

  function SetState(d: Desk, id: nat, state: RevisionState, decidedAt: Option<nat>): Desk
    requires id < |d.revisions|
  {
    d.(revisions := d.revisions[id := d.revisions[id].(state := state, decidedAt := decidedAt)], now := d.now + 1)
  }

  /** The outcome is recorded only while the revision still waits for it. */
  function SetOutcome(d: Desk, id: nat, outcome: Outcome): Desk
    requires id < |d.revisions|
  {
    if d.revisions[id].state != PendingReview then d
    else if outcome == OutcomeApproved then SetState(d, id, Approved, Some(d.now))
    else SetState(d, id, ManualReview, None)
  }

  /** Hand the oldest waiting revision to the agents; without agents it goes to a human. */
  function TakeNext(d: Desk, agents: bool): Desk {
    var next := NextPending(d.revisions, 0);
    if d.inFlight.Some? || next.None? then d
    else if !agents then SetOutcome(d, next.value, OutcomeManual)
    else d.(reviews := WithoutAgents(d.reviews, next.value), inFlight := next)
  }

  function AgentRows(id: nat, first: Verdict, second: Verdict, high: Verdict): seq<ReviewRow> {
    [ReviewRow(id, Agent, Some(Low), first, None), ReviewRow(id, Agent, Some(Low), second, None)]
      + if AfterLows(first, second) == EscalateHigh then [ReviewRow(id, Agent, Some(High), high, None)] else []
  }

  /** The agents have answered: record the verdicts and decide. */
  function Conclude(d: Desk, first: Verdict, second: Verdict, high: Verdict): Desk {
    if d.inFlight.None? || d.inFlight.value >= |d.revisions| then d else
    var id := d.inFlight.value;
    var asked := if AfterLows(first, second) == EscalateHigh then Some(high) else None;
    var outcome := Decide(d.revisions[id].baseline.None?, first, second, asked);
    SetOutcome(d.(reviews := d.reviews + AgentRows(id, first, second, high), inFlight := None), id, outcome)
  }

  /** A review that fails on the way decides nothing; some of the verdicts may be recorded already. */
  function Abandon(d: Desk, first: Verdict, second: Verdict, high: Verdict, recorded: nat): Desk {
    if d.inFlight.None? then d else
    var rows := AgentRows(d.inFlight.value, first, second, high);
    d.(reviews := d.reviews + if recorded <= |rows| then rows[..recorded] else rows, inFlight := None)
  }

  /** A human decides, on a revision in manual review only, and with a reason. */
  function DecideManually(d: Desk, id: nat, approve: bool, rationale: nat): Desk {
    if rationale < 8 || rationale > 4000 || id >= |d.revisions| || d.revisions[id].state != ManualReview then d else
    SetState(d, id, if approve then Approved else Rejected, Some(d.now))
      .(reviews := d.reviews + [ReviewRow(id, Human, None, if approve then Approve else Reject, None)])
  }

  function Retry(d: Desk, id: nat): Desk {
    if id >= |d.revisions| || d.revisions[id].state != ManualReview then d else SetState(d, id, PendingReview, None)
  }

  datatype Event =
    | Inserted(snapshot: Snapshot)
    | Taken(agents: bool)
    | Concluded(first: Verdict, second: Verdict, high: Verdict)
    | Abandoned(first: Verdict, second: Verdict, high: Verdict, recorded: nat)
    | Decided(id: nat, approve: bool, rationale: nat)
    | Retried(id: nat)

  function After(d: Desk, e: Event): Desk {
    match e
    case Inserted(s) => Insert(d, s)
    case Taken(agents) => TakeNext(d, agents)
    case Concluded(first, second, high) => Conclude(d, first, second, high)
    case Abandoned(first, second, high, recorded) => Abandon(d, first, second, high, recorded)
    case Decided(id, approve, rationale) => DecideManually(d, id, approve, rationale)
    case Retried(id) => Retry(d, id)
  }

  const EMPTY_DESK := Desk([], [], 0, None)

  function History(events: seq<Event>): Desk {
    if |events| == 0 then EMPTY_DESK else After(History(events[..|events| - 1]), events[|events| - 1])
  }

  // ---------------------------------------------------------------- what approval rests on

  ghost predicate ByHuman(d: Desk, id: nat) {
    ReviewRow(id, Human, None, Approve, None) in d.reviews
  }

  /** The agent rows of a revision, in the order they were recorded. */
  function AgentsOf(reviews: seq<ReviewRow>, id: nat): seq<ReviewRow> {
    if |reviews| == 0 then [] else
    var last := reviews[|reviews| - 1];
    AgentsOf(reviews[..|reviews| - 1], id) + if last.kind == Agent && last.revision == id then [last] else []
  }

  lemma {:induction false} AgentsOfAppend(a: seq<ReviewRow>, b: seq<ReviewRow>, id: nat)
    ensures AgentsOf(a + b, id) == AgentsOf(a, id) + AgentsOf(b, id)
  {
    if |b| == 0 {
      assert a + b == a;
    } else {
      AgentsOfAppend(a, b[..|b| - 1], id);
      assert (a + b)[..|a + b| - 1] == a + b[..|b| - 1];
    }
  }

  lemma {:induction false} NoAgentsOf(rows: seq<ReviewRow>, id: nat)
    requires forall row <- rows :: !(row.kind == Agent && row.revision == id)
    ensures AgentsOf(rows, id) == []
  {
    if |rows| > 0 { NoAgentsOf(rows[..|rows| - 1], id); }
  }

  lemma {:induction false} AllAgentsOf(rows: seq<ReviewRow>, id: nat)
    requires forall row <- rows :: row.kind == Agent && row.revision == id
    ensures AgentsOf(rows, id) == rows
  {
    if |rows| > 0 { AllAgentsOf(rows[..|rows| - 1], id); }
  }

  /** Deleting the agent rows of one revision leaves those of the others. */
  lemma {:induction false} AgentsOfWithout(reviews: seq<ReviewRow>, id: nat, other: nat)
    ensures AgentsOf(WithoutAgents(reviews, id), other) == if other == id then [] else AgentsOf(reviews, other)
  {
    if |reviews| > 0 {
      var last := reviews[|reviews| - 1];
      AgentsOfWithout(reviews[..|reviews| - 1], id, other);
      AgentsOfAppend(WithoutAgents(reviews[..|reviews| - 1], id), if last.kind == Agent && last.revision == id then []
          else [last], other);
      assert [last][..0] == [];
    }
  }

  /** The agents read the revision once, of a package that had an approved revision before: both low ones approved, or
      the high one did after they had not. */
  ghost predicate ByAgents(d: Desk, id: nat) {
    && id < |d.revisions| && d.revisions[id].baseline.Some?
    && exists first, second, high ::
         && AgentsOf(d.reviews, id) == AgentRows(id, first, second, high)
         && Decide(false, first, second, if AfterLows(first, second) == EscalateHigh then Some(high) else None)
             == OutcomeApproved
  }

  /** The revision has the tree of an approved one of the same package. */
  ghost predicate ByReuse(d: Desk, id: nat, source: nat) {
    && source < id < |d.revisions| && ReviewRow(id, Reuse, None, Approve, Some(source)) in d.reviews
    && d.revisions[source].base == d.revisions[id].base && d.revisions[source].tree == d.revisions[id].tree
    && Earlier(d, source, id)
  }

  /** Both are approved, the first one before the second. */
  ghost predicate Earlier(d: Desk, a: nat, b: nat) {
    && a < |d.revisions| && b < |d.revisions|
    && d.revisions[a].state == Approved && d.revisions[b].state == Approved
    && d.revisions[a].decidedAt.Some? && d.revisions[b].decidedAt.Some?
    && d.revisions[a].decidedAt.value < d.revisions[b].decidedAt.value
  }

  ghost predicate Justified(d: Desk, id: nat)
    requires id < |d.revisions|
  {
    || ByHuman(d, id)
    || (ByAgents(d, id) && Earlier(d, d.revisions[id].baseline.value, id))
    || exists source :: ByReuse(d, id, source)
  }

  /** A baseline is an older, approved revision of the same package. */
  ghost predicate SoundBaseline(d: Desk, id: nat)
    requires id < |d.revisions|
  {
    var b := d.revisions[id].baseline;
    b.Some? ==>
      b.value < id && d.revisions[b.value].base == d.revisions[id].base && d.revisions[b.value].state == Approved
  }

  ghost predicate Approvals(d: Desk) {
    forall i :: 0 <= i < |d.revisions| && d.revisions[i].state == Approved ==>
        d.revisions[i].decidedAt.Some? && Justified(d, i)
  }

  /** Each package has at most one revision under review, and it is the package's newest. */
  ghost predicate OneOpen(revisions: seq<Revision>) {
    forall i, j :: 0 <= i < j < |revisions| && revisions[i].base == revisions[j].base ==> !Open(revisions[i].state)
  }

  ghost predicate DecidedInThePast(d: Desk) {
    forall i :: 0 <= i < |d.revisions| && d.revisions[i].decidedAt.Some? ==> d.revisions[i].decidedAt.value < d.now
  }

  ghost predicate Reading(d: Desk) {
    d.inFlight.Some? ==>
      && d.inFlight.value < |d.revisions| && d.revisions[d.inFlight.value].state in {PendingReview, Superseded}
      && AgentsOf(d.reviews, d.inFlight.value) == []
  }

  ghost predicate Inv(d: Desk) {
    && (forall i :: 0 <= i < |d.revisions| ==> SoundBaseline(d, i))
    && Approvals(d) && DecidedInThePast(d) && OneOpen(d.revisions) && Reading(d)
  }

  // ---------------------------------------------------------------- one event

  /** What no event undoes: rows stay, decided rows stay as they are, and so does what approvals rest on. */
  ghost predicate Grows(d: Desk, e: Desk) {
    && |d.revisions| <= |e.revisions| && d.now <= e.now
    && (forall i :: 0 <= i < |d.revisions| ==> SameIdentity(d.revisions[i], e.revisions[i]))
    && (forall i :: 0 <= i < |d.revisions| && !Open(d.revisions[i].state) ==> e.revisions[i] == d.revisions[i])
    && (forall row <- d.reviews :: row.kind != Agent ==> row in e.reviews)
    && (forall i ::
        0 <= i < |d.revisions| && d.revisions[i].state == Approved ==> AgentsOf(e.reviews, i) == AgentsOf(d.reviews, i))
  }

  ghost predicate SameIdentity(a: Revision, b: Revision) {
    b == a.(state := b.state, decidedAt := b.decidedAt)
  }

  lemma JustifiedStays(d: Desk, e: Desk, id: nat)
    requires Grows(d, e) && id < |d.revisions| && d.revisions[id].state == Approved && Justified(d, id)
    ensures Justified(e, id)
  {
    if ByHuman(d, id) {
    } else if ByAgents(d, id) && Earlier(d, d.revisions[id].baseline.value, id) {
      AgentRowsStay(d, e, id);
    } else {
      var source :| ByReuse(d, id, source);
      assert ByReuse(e, id, source);
    }
  }

  lemma AgentRowsStay(d: Desk, e: Desk, id: nat)
    requires Grows(d, e) && ByAgents(d, id) && d.revisions[id].state == Approved
    ensures ByAgents(e, id)
  {
    var first, second, high :|
      && AgentsOf(d.reviews, id) == AgentRows(id, first, second, high)
      && Decide(false, first, second, if AfterLows(first, second) == EscalateHigh then Some(high) else None)
          == OutcomeApproved;
    assert AgentsOf(e.reviews, id) == AgentRows(id, first, second, high);
  }

  /** Given that an event only grows the desk, the old rows keep what the invariant says of them. */
  lemma OldRowsStay(d: Desk, e: Desk)
    requires Inv(d) && Grows(d, e)
    ensures forall i :: 0 <= i < |d.revisions| ==> SoundBaseline(e, i)
    ensures forall i ::
        0 <= i < |d.revisions| && d.revisions[i].state == Approved ==> e.revisions[i].decidedAt.Some? && Justified(e, i)
  {
    forall i | 0 <= i < |d.revisions| ensures SoundBaseline(e, i) {
        assert SoundBaseline(d, i) && SameIdentity(d.revisions[i], e.revisions[i]); }
    forall i | 0 <= i < |d.revisions| && d.revisions[i].state == Approved
        ensures e.revisions[i].decidedAt.Some? && Justified(e, i) {
      JustifiedStays(d, e, i);
    }
  }

  lemma RowsOfOthers(reviews: seq<ReviewRow>, rows: seq<ReviewRow>, id: nat)
    requires forall row <- rows :: !(row.kind == Agent && row.revision == id)
    ensures AgentsOf(reviews + rows, id) == AgentsOf(reviews, id)
  {
    AgentsOfAppend(reviews, rows, id);
    NoAgentsOf(rows, id);
  }

  lemma InsertGrows(d: Desk, s: Snapshot)
    ensures Grows(d, Insert(d, s))
  {
    if !Known(d.revisions, s) {
      var e := Insert(d, s);
      forall i | 0 <= i < |d.revisions| ensures SameIdentity(d.revisions[i], e.revisions[i]) {}
      forall i ensures AgentsOf(e.reviews, i) == AgentsOf(d.reviews, i) {
          RowsOfOthers(d.reviews, InsertionRows(d, s), i); }
    }
  }

  /** The new row of an insertion. */
  lemma InsertedRow(d: Desk, s: Snapshot)
    requires Inv(d) && !Known(d.revisions, s)
    ensures var e, id := Insert(d, s), |d.revisions|;
            && |e.revisions| == id + 1 && e.revisions[id] == NewRow(d, s) && SoundBaseline(e, id)
            && (e.revisions[id].state == Approved ==> e.revisions[id].decidedAt.Some? && Justified(e, id))
  {
    var e, id := Insert(d, s), |d.revisions|;
    assert e.revisions[id] == NewRow(d, s);
    var source := Reusable(d.revisions, s.base, s.tree);
    if e.revisions[id].state == Approved {
      assert ReviewRow(id, Reuse, None, Approve, source) in InsertionRows(d, s);
      assert ByReuse(e, id, source.value);
    }
  }

  lemma InsertKeeps(d: Desk, s: Snapshot)
    requires Inv(d)
    ensures Inv(Insert(d, s))
  {
    hide Justified, SoundBaseline, Grows, NewRow, InsertionRows, Known, OneOpen;
    if !Known(d.revisions, s) {
      InsertGrows(d, s);
      OldRowsStay(d, Insert(d, s));
      InsertedRow(d, s);
      NewRowFields(d, s);
      InsertedRows(d, s);
      InsertedOneOpen(d.revisions, Insert(d, s).revisions, s.base);
      hide Insert;
      var e, id := Insert(d, s), |d.revisions|;
      forall i | 0 <= i < id && e.revisions[i].state == Approved ensures d.revisions[i].state == Approved {}
    }
  }

  lemma InsertedOneOpen(before: seq<Revision>, after: seq<Revision>, base: string)
    requires OneOpen(before) && |after| == |before| + 1 && after[|before|].base == base
    requires forall i | 0 <= i < |before| :: after[i] == Replaced(before[i], base)
    ensures OneOpen(after)
  {
  }

  /** What an insertion does to the rows, in one place. */
  lemma InsertedRows(d: Desk, s: Snapshot)
    requires !Known(d.revisions, s)
    ensures var e, id := Insert(d, s), |d.revisions|;
            && |e.revisions| == id + 1 && e.revisions[id] == NewRow(d, s) && e.now == d.now + 1
                && e.inFlight == d.inFlight
            && (forall i :: AgentsOf(e.reviews, i) == AgentsOf(d.reviews, i))
            && forall i | 0 <= i < id :: e.revisions[i] == Replaced(d.revisions[i], s.base)
  {
    forall i ensures AgentsOf(Insert(d, s).reviews, i) == AgentsOf(d.reviews, i) {
        RowsOfOthers(d.reviews, InsertionRows(d, s), i); }
  }

  lemma NewRowFields(d: Desk, s: Snapshot)
    ensures NewRow(d, s).base == s.base && (NewRow(d, s).decidedAt.Some? ==> NewRow(d, s).decidedAt.value == d.now)
  {
  }

  /** A change of one open revision, with rows added, grows the desk. */
  lemma SetStateGrows(d: Desk, id: nat, state: RevisionState, decidedAt: Option<nat>, rows: seq<ReviewRow>)
    requires id < |d.revisions| && Open(d.revisions[id].state)
    requires forall row <- rows :: row.kind == Agent ==> row.revision == id
    ensures Grows(d, SetState(d, id, state, decidedAt).(reviews := d.reviews + rows))
  {
    forall i | 0 <= i < |d.revisions| && d.revisions[i].state == Approved
        ensures AgentsOf(d.reviews + rows, i) == AgentsOf(d.reviews, i) {
      RowsOfOthers(d.reviews, rows, i);
    }
  }

  lemma SetStateKeeps(d: Desk, id: nat, state: RevisionState, decidedAt: Option<nat>, rows: seq<ReviewRow>)
    requires Inv(d) && id < |d.revisions| && Open(d.revisions[id].state)
    requires decidedAt == if Open(state) then None else Some(d.now)
    requires d.inFlight == Some(id) ==> state == PendingReview
    requires forall row <- rows :: row.kind == Agent ==> row.revision == id && d.inFlight.None?
    requires var e := SetState(d, id, state, decidedAt).(reviews := d.reviews + rows);
        state == Approved ==> Justified(e, id)
    ensures Inv(SetState(d, id, state, decidedAt).(reviews := d.reviews + rows))
  {
    hide Justified, SoundBaseline;
    var e := SetState(d, id, state, decidedAt).(reviews := d.reviews + rows);
    SetStateGrows(d, id, state, decidedAt, rows);
    OldRowsStay(d, e);
    if d.inFlight.Some? { RowsOfOthers(d.reviews, rows, d.inFlight.value); }
  }

  lemma TakeKeeps(d: Desk, agents: bool)
    requires Inv(d)
    ensures Inv(TakeNext(d, agents)) && Grows(d, TakeNext(d, agents))
  {
    var next := NextPending(d.revisions, 0);
    if d.inFlight.None? && next.Some? {
      if agents {
        forall i ensures AgentsOf(TakeNext(d, agents).reviews, i) == if i == next.value then []
            else AgentsOf(d.reviews, i) {
          AgentsOfWithout(d.reviews, next.value, i);
        }
        OldRowsStay(d, TakeNext(d, agents));
      } else {
        assert d.reviews + [] == d.reviews;
        SetStateGrows(d, next.value, ManualReview, None, []);
        SetStateKeeps(d, next.value, ManualReview, None, []);
      }
    }
  }

  lemma ConcludeKeeps(d: Desk, first: Verdict, second: Verdict, high: Verdict)
    requires Inv(d)
    ensures Inv(Conclude(d, first, second, high)) && Grows(d, Conclude(d, first, second, high))
  {
    if d.inFlight.Some? {
      var id := d.inFlight.value;
      var rows := AgentRows(id, first, second, high);
      var e := Conclude(d, first, second, high);
      var free := d.(inFlight := None);
      if d.revisions[id].state == PendingReview {
        ReadingDone(d);
        if e.revisions[id].state == Approved { AgentsJustify(d, e, id, first, second, high); }
        hide Justified, SoundBaseline, Approvals, DecidedInThePast, OneOpen, Grows;
        var state := e.revisions[id].state;
        SetStateGrows(free, id, state, if state == Approved then Some(d.now) else None, rows);
        SetStateKeeps(free, id, state, if state == Approved then Some(d.now) else None, rows);
        GrowsFromFree(d, e);
      } else {
        UndecidedRows(d, rows);
      }
    }
  }

  /** Verdicts recorded without an outcome, on a revision that is not approved. */
  lemma UndecidedRows(d: Desk, rows: seq<ReviewRow>)
    requires Inv(d) && d.inFlight.Some? && forall row <- rows :: row.revision == d.inFlight.value
    ensures var e := d.(reviews := d.reviews + rows, inFlight := None); Inv(e) && Grows(d, e)
  {
    var e := d.(reviews := d.reviews + rows, inFlight := None);
    forall i | 0 <= i < |d.revisions| && d.revisions[i].state == Approved
        ensures AgentsOf(e.reviews, i) == AgentsOf(d.reviews, i) {
      RowsOfOthers(d.reviews, rows, i);
    }
    OldRowsStay(d, e);
  }

  lemma ReadingDone(d: Desk)
    requires Inv(d)
    ensures Inv(d.(inFlight := None))
  {
    OldRowsStay(d, d.(inFlight := None));
  }

  lemma GrowsFromFree(d: Desk, e: Desk)
    requires Grows(d.(inFlight := None), e)
    ensures Grows(d, e)
  {
  }

  lemma AgentsJustify(d: Desk, e: Desk, id: nat, first: Verdict, second: Verdict, high: Verdict)
    requires Inv(d) && d.inFlight == Some(id) && d.revisions[id].state == PendingReview
    requires e == Conclude(d, first, second, high) && e.revisions[id].state == Approved
    ensures Justified(e, id)
  {
    hide AgentsOf, AgentRows, Approvals, DecidedInThePast, OneOpen;
    assert SoundBaseline(d, id);
    ConcludedRows(d, id, first, second, high);
    assert AgentsOf(e.reviews, id) == AgentRows(id, first, second, high);
    assert ByAgents(e, id);
    EarlierThanNow(d, e, id);
  }

  lemma ConcludedRows(d: Desk, id: nat, first: Verdict, second: Verdict, high: Verdict)
    requires Reading(d) && d.inFlight == Some(id)
    ensures AgentsOf(d.reviews + AgentRows(id, first, second, high), id) == AgentRows(id, first, second, high)
  {
    var rows := AgentRows(id, first, second, high);
    AgentsOfAppend(d.reviews, rows, id);
    AllAgentsOf(rows, id);
  }

  lemma EarlierThanNow(d: Desk, e: Desk, id: nat)
    requires Inv(d) && id < |d.revisions| && d.revisions[id].baseline.Some? && d.revisions[id].state != Approved
    requires |e.revisions| == |d.revisions| && e.revisions == d.revisions[id := e.revisions[id]]
    requires e.revisions[id].state == Approved && e.revisions[id].decidedAt == Some(d.now)
    requires e.revisions[id].baseline == d.revisions[id].baseline
    ensures Earlier(e, e.revisions[id].baseline.value, id)
  {
    hide Justified;
    assert SoundBaseline(d, id);
  }

  lemma DecideKeeps(d: Desk, id: nat, approve: bool, rationale: nat)
    requires Inv(d)
    ensures Inv(DecideManually(d, id, approve, rationale)) && Grows(d, DecideManually(d, id, approve, rationale))
  {
    var e := DecideManually(d, id, approve, rationale);
    if e != d {
      var state := if approve then Approved else Rejected;
      var row := ReviewRow(id, Human, None, if approve then Approve else Reject, None);
      assert row in d.reviews + [row];
      SetStateGrows(d, id, state, Some(d.now), [row]);
      SetStateKeeps(d, id, state, Some(d.now), [row]);
    }
  }

  lemma AbandonKeeps(d: Desk, first: Verdict, second: Verdict, high: Verdict, recorded: nat)
    requires Inv(d) && d.inFlight.Some?
    ensures Inv(Abandon(d, first, second, high, recorded)) && Grows(d, Abandon(d, first, second, high, recorded))
  {
    hide Inv, Grows;
    var rows := AgentRows(d.inFlight.value, first, second, high);
    UndecidedRows(d, if recorded <= |rows| then rows[..recorded] else rows);
  }

  lemma RetryKeeps(d: Desk, id: nat)
    requires Inv(d)
    ensures Inv(Retry(d, id)) && Grows(d, Retry(d, id))
  {
    if id < |d.revisions| && d.revisions[id].state == ManualReview {
      assert d.reviews + [] == d.reviews;
      SetStateGrows(d, id, PendingReview, None, []);
      SetStateKeeps(d, id, PendingReview, None, []);
    }
  }

  /** Every event keeps the invariant, and undoes no decision. */
  lemma EventKeeps(d: Desk, e: Event)
    requires Inv(d)
    ensures Inv(After(d, e)) && Grows(d, After(d, e))
  {
    match e
    case Inserted(s) => InsertKeeps(d, s); InsertGrows(d, s);
    case Taken(agents) => TakeKeeps(d, agents);
    case Concluded(first, second, high) => ConcludeKeeps(d, first, second, high);
    case Abandoned(first, second, high, recorded) => if d.inFlight.Some? {
        AbandonKeeps(d, first, second, high, recorded); }
    case Decided(id, approve, rationale) => DecideKeeps(d, id, approve, rationale);
    case Retried(id) => RetryKeeps(d, id);
  }

  lemma EventKeepsIf(d: Desk, e: Event)
    ensures Inv(d) ==> Inv(After(d, e))
  {
    hide Inv, After;
    if Inv(d) { EventKeeps(d, e); }
  }

  // ---------------------------------------------------------------- every run

  /** The invariant holds after every history; each package has at most one open revision, and it is the newest. */
  lemma {:induction false} HistoryKeeps(events: seq<Event>)
    ensures Inv(History(events))
  {
    if |events| > 0 {
      HistoryKeeps(events[..|events| - 1]);
      EventKeeps(History(events[..|events| - 1]), events[|events| - 1]);
    }
  }

  /** Approved, rejected and superseded are absorbing over every continuation of a run. */
  lemma {:induction false} DecisionsStand(events: seq<Event>, more: seq<Event>, id: nat)
    requires id < |History(events).revisions| && !Open(History(events).revisions[id].state)
    ensures id < |History(events + more).revisions|
    ensures History(events + more).revisions[id] == History(events).revisions[id]
  {
    hide After, Inv;
    if |more| == 0 {
      assert events + more == events;
    } else {
      var before := more[..|more| - 1];
      DecisionsStand(events, before, id);
      assert (events + more)[..|events + more| - 1] == events + before;
      HistoryKeeps(events + before);
      EventKeeps(History(events + before), more[|more| - 1]);
    }
  }

  /** The revision of a package that was approved first was approved by a human. */
  lemma FirstApprovalIsHuman(d: Desk, id: nat)
    requires Inv(d) && id < |d.revisions| && d.revisions[id].state == Approved
    requires forall j ::
        0 <= j < |d.revisions| && d.revisions[j].base == d.revisions[id].base && d.revisions[j].state == Approved ==>
               d.revisions[id].decidedAt.value <= d.revisions[j].decidedAt.value
    ensures ByHuman(d, id)
  {
    assert Justified(d, id) && SoundBaseline(d, id);
  }

  /** The approval of a package that was decided first, among the revisions below `n`. */
  lemma {:induction false} EarliestApproval(d: Desk, base: string, n: nat, some: nat) returns (first: nat)
    requires Approvals(d) && some < n <= |d.revisions| && d.revisions[some].base == base
        && d.revisions[some].state == Approved
    ensures first < n && d.revisions[first].base == base && d.revisions[first].state == Approved
    ensures forall j :: 0 <= j < n && d.revisions[j].base == base && d.revisions[j].state == Approved ==>
              d.revisions[first].decidedAt.value <= d.revisions[j].decidedAt.value
  {
    hide Justified;
    if older: nat :| older < n - 1 && d.revisions[older].base == base && d.revisions[older].state == Approved {
      first := EarliestApproval(d, base, n - 1, older);
      var last := d.revisions[n - 1];
      if last.base == base && last.state == Approved && last.decidedAt.value < d.revisions[first].decidedAt.value {
        first := n - 1;
      }
    } else {
      first := some;
    }
  }

  /** Whatever is approved, a human approved a revision of the same package, no later. */
  lemma HumanApprovedBefore(d: Desk, id: nat) returns (first: nat)
    requires Inv(d) && id < |d.revisions| && d.revisions[id].state == Approved
    ensures first < |d.revisions| && d.revisions[first].base == d.revisions[id].base
        && d.revisions[first].state == Approved
    ensures ByHuman(d, first) && d.revisions[first].decidedAt.Some? && d.revisions[id].decidedAt.Some?
    ensures d.revisions[first].decidedAt.value <= d.revisions[id].decidedAt.value
  {
    hide Justified;
    first := EarliestApproval(d, d.revisions[id].base, |d.revisions|, id);
    FirstApprovalIsHuman(d, first);
  }

  /** Every approval traces back, through revisions of the same package with the same tree, to one that a human or the
      agents approved. */
  lemma {:induction false} ApprovalHasOrigin(d: Desk, id: nat) returns (origin: nat)
    requires Inv(d) && id < |d.revisions| && d.revisions[id].state == Approved
    ensures origin <= id && d.revisions[origin].state == Approved
    ensures d.revisions[origin].base == d.revisions[id].base && d.revisions[origin].tree == d.revisions[id].tree
    ensures ByHuman(d, origin) || ByAgents(d, origin)
    decreases id
  {
    assert Justified(d, id);
    if ByHuman(d, id) || ByAgents(d, id) {
      origin := id;
    } else {
      var source :| ByReuse(d, id, source);
      origin := ApprovalHasOrigin(d, source);
    }
  }

  /** Only an insertion adds a row, and it approves no older one. */
  lemma NewlyApproved(d: Desk, e: Event, i: nat)
    requires i < |After(d, e).revisions| && After(d, e).revisions[i].state == Approved
    requires i < |d.revisions| ==> d.revisions[i].state != Approved
    ensures if i < |d.revisions| then |After(d, e).revisions| == |d.revisions| else i == |After(d, e).revisions| - 1
  {
  }

  /** Whatever an event newly approves becomes the latest approved revision of its package, so that one only moves
      on. */
  lemma ApprovalsMoveForward(d: Desk, e: Event, base: string)
    requires Inv(d)
    ensures var before, after := LatestApproved(d.revisions, base), LatestApproved(After(d, e).revisions, base);
            before.Some? ==> after.Some? && before.value <= after.value
    ensures forall i | 0 <= i < |After(d, e).revisions| && After(d, e).revisions[i].state == Approved
                       && (i < |d.revisions| ==> d.revisions[i].state != Approved) ::
              LatestApproved(After(d, e).revisions, After(d, e).revisions[i].base) == Some(i)
  {
    hide After, LatestApproved, Approvals, DecidedInThePast, SoundBaseline, Reading;
    EventKeeps(d, e);
    var f := After(d, e);
    forall i | 0 <= i < |f.revisions| && f.revisions[i].state == Approved
        && (i < |d.revisions| ==> d.revisions[i].state != Approved)
      ensures LatestApproved(f.revisions, f.revisions[i].base) == Some(i)
    {
      NewlyApproved(d, e, i);
      if i < |d.revisions| { assert Open(d.revisions[i].state); }
      forall j | i < j < |f.revisions| ensures f.revisions[j].base != f.revisions[i].base {
        assert SameIdentity(d.revisions[i], f.revisions[i]) && SameIdentity(d.revisions[j], f.revisions[j]);
      }
    }
  }

  // ---------------------------------------------------------------- what the rows say

  /** An agent of this role gave this verdict on the revision. */
  predicate AgentSaid(row: ReviewRow, id: nat, role: Role, verdict: Verdict) {
    row == ReviewRow(id, Agent, Some(role), verdict, None)
  }

  /** What agents do with a revision that waits, row by row. The two low verdicts are recorded, and a third row, the
      high agent's, exactly when they do not both approve. Approved is a revision with an approved predecessor to which
      both low ones or else the high one said yes; any other goes to a human. */
  lemma ConcludeDecides(d: Desk, first: Verdict, second: Verdict, high: Verdict)
    requires d.inFlight.Some? && d.inFlight.value < |d.revisions|
    requires d.revisions[d.inFlight.value].state == PendingReview
    ensures var e, id := Conclude(d, first, second, high), d.inFlight.value;
            var both := first == Approve && second == Approve;
            && e.inFlight.None? && |e.revisions| == |d.revisions|
            && (forall i :: 0 <= i < |d.revisions| && i != id ==> e.revisions[i] == d.revisions[i])
            && (e.revisions[id].state == Approved <==> d.revisions[id].baseline.Some? && (both || high == Approve))
            && (e.revisions[id].state != Approved ==> e.revisions[id].state == ManualReview)
            && |e.reviews| == |d.reviews| + (if both then 2 else 3) && d.reviews <= e.reviews
            && AgentSaid(e.reviews[|d.reviews|], id, Low, first)
            && AgentSaid(e.reviews[|d.reviews| + 1], id, Low, second)
            && (!both ==> AgentSaid(e.reviews[|d.reviews| + 2], id, High, high))
  {
  }

  /** A revision that was decided otherwise while the agents read keeps its state. */
  lemma ConcludeTooLate(d: Desk, first: Verdict, second: Verdict, high: Verdict)
    requires d.inFlight.Some? && d.inFlight.value < |d.revisions|
    requires d.revisions[d.inFlight.value].state != PendingReview
    ensures Conclude(d, first, second, high).revisions == d.revisions
  {
  }

  lemma {:induction false} AgentsOfHas(reviews: seq<ReviewRow>, id: nat, row: ReviewRow)
    ensures row in AgentsOf(reviews, id) <==> row in reviews && row.kind == Agent && row.revision == id
  {
    if |reviews| > 0 { AgentsOfHas(reviews[..|reviews| - 1], id, row); }
  }

  /** Two approving low agents suffice: a waiting revision with an approved predecessor is approved, and no high agent
      was asked. */
  lemma BothLowsSuffice(d: Desk, high: Verdict)
    requires Inv(d) && d.inFlight.Some? && d.revisions[d.inFlight.value].state == PendingReview
    requires d.revisions[d.inFlight.value].baseline.Some?
    ensures var e, id := Conclude(d, Approve, Approve, high), d.inFlight.value;
            && e.revisions[id].state == Approved
            && forall row <- e.reviews :: row.kind == Agent && row.revision == id ==> row.role == Some(Low)
  {
    var e, id := Conclude(d, Approve, Approve, high), d.inFlight.value;
    ConcludeDecides(d, Approve, Approve, high);
    forall row <- d.reviews ensures !(row.kind == Agent && row.revision == id) { AgentsOfHas(d.reviews, id, row); }
    assert e.reviews == d.reviews + [e.reviews[|d.reviews|], e.reviews[|d.reviews| + 1]];
  }

  /** At two places of the table a low agent approved. */
  ghost predicate TwoLowsApproved(reviews: seq<ReviewRow>, id: nat) {
    exists i, j :: 0 <= i < j < |reviews| && AgentSaid(reviews[i], id, Low, Approve)
                   && AgentSaid(reviews[j], id, Low, Approve)
  }

  /** The rows of a revision that the agents read once and approved. */
  lemma AgentRowsApprove(d: Desk, id: nat)
    requires ByAgents(d, id)
    ensures d.revisions[id].baseline.Some?
    ensures TwoLowsApproved(d.reviews, id) || exists row <- d.reviews :: AgentSaid(row, id, High, Approve)
    ensures forall row <- d.reviews, v | AgentSaid(row, id, Low, v) && v != Approve ::
              exists high <- d.reviews :: AgentSaid(high, id, High, Approve)
  {
    var first, second, high :|
         && AgentsOf(d.reviews, id) == AgentRows(id, first, second, high)
         && Decide(false, first, second, if AfterLows(first, second) == EscalateHigh then Some(high) else None)
             == OutcomeApproved;
    forall row
      ensures row in AgentsOf(d.reviews, id) <==> row in d.reviews && row.kind == Agent && row.revision == id
    {
      AgentsOfHas(d.reviews, id, row);
    }
    if first == Approve && second == Approve {
      TwoPlaces(d.reviews, id);
    } else {
      var said := ReviewRow(id, Agent, Some(High), Approve, None);
      assert said == AgentsOf(d.reviews, id)[2];
      assert said in d.reviews && AgentSaid(said, id, High, Approve);
    }
  }

  lemma {:induction false} TwoPlaces(reviews: seq<ReviewRow>, id: nat)
    requires var row := ReviewRow(id, Agent, Some(Low), Approve, None); AgentsOf(reviews, id) == [row, row]
    ensures TwoLowsApproved(reviews, id)
  {
    var row := ReviewRow(id, Agent, Some(Low), Approve, None);
    var n := |reviews| - 1;
    if reviews[n].kind == Agent && reviews[n].revision == id {
      var a := AgentsOf(reviews[..n], id);
      assert a + [reviews[n]] == [row, row] && |a + [reviews[n]]| == 2;
      assert row == (a + [reviews[n]])[0] == a[0] && row == (a + [reviews[n]])[1] == reviews[n];
      AgentsOfHas(reviews[..n], id, row);
      var i :| 0 <= i < n && reviews[..n][i] == row;
      assert AgentSaid(reviews[i], id, Low, Approve) && AgentSaid(reviews[n], id, Low, Approve);
    } else {
      TwoPlaces(reviews[..n], id);
      var i, j :| 0 <= i < j < n && AgentSaid(reviews[..n][i], id, Low, Approve)
                  && AgentSaid(reviews[..n][j], id, Low, Approve);
      assert AgentSaid(reviews[i], id, Low, Approve) && AgentSaid(reviews[j], id, Low, Approve);
    }
  }

  /** Main result about the 2+1 rule: after every run, an approved revision that no human judged and that reuses no
      review has an approved predecessor and two approving low agents or an approving high one; and where a low agent
      did not approve, the high one did. */
  lemma AgentApprovalsHaveRows(events: seq<Event>, id: nat)
    requires var d := History(events);
             && id < |d.revisions| && d.revisions[id].state == Approved
             && forall row <- d.reviews :: row.revision == id ==> row.kind != Human && row.kind != Reuse
    ensures var d := History(events);
            && d.revisions[id].baseline.Some?
            && (TwoLowsApproved(d.reviews, id) || exists row <- d.reviews :: AgentSaid(row, id, High, Approve))
            && (forall row <- d.reviews, v | AgentSaid(row, id, Low, v) && v != Approve ::
                  exists high <- d.reviews :: AgentSaid(high, id, High, Approve))
  {
    hide History, ByAgents, TwoLowsApproved;
    var d := History(events);
    HistoryKeeps(events);
    assert Justified(d, id);
    if ByHuman(d, id) { assert false; }
    if source: nat :| ByReuse(d, id, source) { assert false; }
    AgentRowsApprove(d, id);
  }

  /** What an insertion stores, row by row. The same commits of a package are stored once. A new revision is rejected
      when the scan blocks it, approved when an approved revision of the package has its tree, and else waits; its
      baseline is the newest approved revision; and what was under review before is superseded. */
  lemma InsertStores(d: Desk, s: Snapshot)
    ensures var e, n := Insert(d, s), |d.revisions|;
            if exists r <- d.revisions :: r.base == s.base && r.aurCommit == s.aurCommit && r.vcsCommit == s.vcsCommit
            then e == d
            else
              var row := e.revisions[n];
              var same := exists r <- d.revisions :: r.base == s.base && r.tree == s.tree && r.state == Approved;
              && |e.revisions| == n + 1
              && row.base == s.base && row.aurCommit == s.aurCommit && row.vcsCommit == s.vcsCommit
              && row.tree == s.tree && row.outputs == s.outputs && row.dependencies == s.dependencies
              && row.baseline == LatestApproved(d.revisions, s.base)
              && (row.state == Rejected <==> s.blocked) && (row.state == Approved <==> !s.blocked && same)
              && (row.state == PendingReview <==> !s.blocked && !same)
              && (row.decidedAt == if row.state == PendingReview then None else Some(d.now))
              && forall i :: 0 <= i < n ==>
                   var r := d.revisions[i];
                   e.revisions[i] == if r.base == s.base && r.state in {PendingReview, ManualReview}
                       then r.(state := Superseded) else r
  {
    ReusableExactly(d.revisions, s.base, s.tree);
  }

  lemma {:induction false} ReusableExactly(revisions: seq<Revision>, base: string, tree: string)
    ensures Reusable(revisions, base, tree).None? <==>
              forall r <- revisions :: !(r.base == base && r.tree == tree && r.state == Approved)
    ensures var r := Reusable(revisions, base, tree);
            r.Some? ==> forall i :: r.value < i < |revisions| ==>
                !(revisions[i].base == base && revisions[i].tree == tree && revisions[i].state == Approved)
  {
    if |revisions| > 0 {
      var before := revisions[..|revisions| - 1];
      ReusableExactly(before, base, tree);
      assert revisions == before + [revisions[|revisions| - 1]];
    }
  }

  /** The scan's verdict is recorded with a new revision, and a reuse row exactly when it is approved: it names the
      newest approved revision of the same tree. */
  lemma InsertRecords(d: Desk, s: Snapshot)
    requires |Insert(d, s).revisions| > |d.revisions|
    ensures var e, n := Insert(d, s), |d.revisions|;
            var more := e.reviews[|d.reviews|..];
            && d.reviews <= e.reviews
            && |more| == (if e.revisions[n].state == Approved then 2 else 1)
            && more[0] == ReviewRow(n, Scan, None, if s.blocked then Reject else Approve, None)
            && (e.revisions[n].state == Approved ==>
                  && more[1].revision == n && more[1].kind == Reuse && more[1].verdict == Approve
                  && more[1].source.Some? && more[1].source.value < n
                  && var r := d.revisions[more[1].source.value];
                     && r.base == s.base && r.tree == s.tree && r.state == Approved
                     && forall i :: more[1].source.value < i < n ==>
                          !(d.revisions[i].base == s.base && d.revisions[i].tree == s.tree
                            && d.revisions[i].state == Approved))
  {
    ReusableExactly(d.revisions, s.base, s.tree);
  }

  /** Whom the review loop takes next: the oldest waiting revision, when none is being read. Its agent rows go; without
      agents it goes to a human. */
  lemma TakeStarts(d: Desk, agents: bool)
    ensures var e := TakeNext(d, agents);
            if d.inFlight.Some? || forall r <- d.revisions :: r.state != PendingReview then e == d
            else
              exists id ::
                && 0 <= id < |d.revisions| && d.revisions[id].state == PendingReview
                && (forall i :: 0 <= i < id ==> d.revisions[i].state != PendingReview)
                && (if agents then
                      && e.inFlight == Some(id) && e.revisions == d.revisions
                      && (forall row :: row in e.reviews <==>
                            row in d.reviews && !(row.kind == Agent && row.revision == id))
                    else
                      && e.inFlight.None? && e.reviews == d.reviews
                      && e.revisions == d.revisions[id := d.revisions[id].(state := ManualReview, decidedAt := None)])
  {
    var next := NextPending(d.revisions, 0);
    if next.None? {
      forall r <- d.revisions ensures r.state != PendingReview {
        var i :| 0 <= i < |d.revisions| && d.revisions[i] == r;
      }
    } else {
      assert d.revisions[next.value] in d.revisions;
    }
  }

  /** What a human's judgement does: only in manual review, with a reason of 8 to 4000 characters; yes approves, no
      rejects, and the row says so. */
  lemma JudgementDecides(d: Desk, id: nat, approve: bool, rationale: nat)
    ensures var e := DecideManually(d, id, approve, rationale);
            if id < |d.revisions| && d.revisions[id].state == ManualReview && 8 <= rationale <= 4000 then
              && e.revisions[id].state == (if approve then Approved else Rejected)
              && e.revisions[id].decidedAt == Some(d.now) && |e.revisions| == |d.revisions|
              && (forall i :: 0 <= i < |d.revisions| && i != id ==> e.revisions[i] == d.revisions[i])
              && e.reviews == d.reviews + [ReviewRow(id, Human, None, if approve then Approve else Reject, None)]
            else e == d
  {
  }

  /** Sending back: only from manual review, and only that revision waits again. */
  lemma SentBackWaits(d: Desk, id: nat)
    ensures var e := Retry(d, id);
            if id < |d.revisions| && d.revisions[id].state == ManualReview then
              && e.revisions == d.revisions[id := d.revisions[id].(state := PendingReview, decidedAt := None)]
              && e.reviews == d.reviews && e.inFlight == d.inFlight
            else e == d
  {
  }

  // ---------------------------------------------------------------- the handlers

  class ReviewDesk {
    var revisions: seq<Revision>
    var reviews: seq<ReviewRow>
    var now: nat
    var inFlight: Option<nat>

    ghost function Value(): Desk
      reads this
    {
      Desk(revisions, reviews, now, inFlight)
    }

    constructor ()
      ensures Value() == EMPTY_DESK
    {
      revisions, reviews, now, inFlight := [], [], 0, None;
    }

    /** Store a snapshot as a revision, unless the same commits are stored already. */
    method InsertRevision(s: Snapshot) returns (created: Option<(nat, RevisionState)>)
      modifies this
      ensures Value() == Insert(old(Value()), s)
      ensures created == if Known(old(revisions), s) then None
          else Some((|old(revisions)|, InsertedState(old(revisions), s)))
      ensures Inv(old(Value())) ==> Inv(Value())
    {
      ghost var before := Value();
      EventKeepsIf(before, Inserted(s));
      for i := 0 to |revisions|
        invariant forall r <- revisions[..i] ::
            !(r.base == s.base && r.aurCommit == s.aurCommit && r.vcsCommit == s.vcsCommit)
      {
        var r := revisions[i];
        if r.base == s.base && r.aurCommit == s.aurCommit && r.vcsCommit == s.vcsCommit {
          assert r in revisions;
          created := None;
          return;
        }
      }
      assert revisions[..|revisions|] == revisions;
      var id := |revisions|;
      var baseline := LatestApproved(revisions, s.base);
      var source := Reusable(revisions, s.base, s.tree);
      var state := if s.blocked then Rejected else if source.Some? then Approved else PendingReview;
      SupersedeOpen(s.base);
      revisions := revisions + [Revision(s.base, s.aurCommit, s.vcsCommit, s.tree, s.outputs, s.dependencies, baseline,
          state,
                                         if state == PendingReview then None else Some(now))];
      var rows := [ReviewRow(id, Scan, None, if s.blocked then Reject else Approve, None)];
      if !s.blocked && source.Some? { rows := rows + [ReviewRow(id, Reuse, None, Approve, source)]; }
      assert rows == InsertionRows(before, s);
      reviews, now := reviews + rows, now + 1;
      created := Some((id, state));
    }

    method SupersedeOpen(base: string)
      modifies `revisions
      ensures revisions == Supersede(old(revisions), base)
    {
      for i := 0 to |revisions|
        invariant |revisions| == |old(revisions)|
        invariant forall j :: 0 <= j < i ==> revisions[j] == Replaced(old(revisions)[j], base)
        invariant forall j :: i <= j < |revisions| ==> revisions[j] == old(revisions)[j]
      {
        if revisions[i].base == base && Open(revisions[i].state) {
          revisions := revisions[i := revisions[i].(state := Superseded)];
        }
      }
      assert |Supersede(old(revisions), base)| == |revisions|;
    }

    /** Start the review of the oldest waiting revision. */
    method Take(agents: bool) returns (taken: Option<nat>)
      modifies this
      ensures Value() == TakeNext(old(Value()), agents)
      ensures Inv(old(Value())) ==> Inv(Value())
    {
      EventKeepsIf(Value(), Taken(agents));
      taken := NextPending(revisions, 0);
      if inFlight.Some? || taken.None? { return; }
      if !agents {
        Record(taken.value, OutcomeManual);
      } else {
        DeleteAgentRows(taken.value);
        inFlight := taken;
      }
    }

    method DeleteAgentRows(id: nat)
      modifies `reviews
      ensures reviews == WithoutAgents(old(reviews), id)
    {
      var kept := [];
      for i := 0 to |reviews|
        invariant kept == WithoutAgents(reviews[..i], id)
      {
        assert reviews[..i + 1][..i] == reviews[..i];
        if !(reviews[i].kind == Agent && reviews[i].revision == id) { kept := kept + [reviews[i]]; }
      }
      assert reviews[..|reviews|] == reviews;
      reviews := kept;
    }

    method Record(id: nat, outcome: Outcome)
      requires id < |revisions|
      modifies `revisions, `now
      ensures Value() == SetOutcome(old(Value()), id, outcome)
    {
      if revisions[id].state == PendingReview {
        var state := if outcome == OutcomeApproved then Approved else ManualReview;
        revisions := revisions[id := revisions[id].(state := state, decidedAt := if state == Approved then Some(now)
            else None)];
        now := now + 1;
      }
    }

    /** The agents' verdicts arrive; the high agent is asked only when the low ones do not both approve. */
    method ConcludeReview(first: Verdict, second: Verdict, high: Verdict) returns (outcome: Option<Outcome>)
      modifies this
      ensures Value() == Conclude(old(Value()), first, second, high)
      ensures Inv(old(Value())) ==> Inv(Value())
    {
      EventKeepsIf(Value(), Concluded(first, second, high));
      if inFlight.None? || inFlight.value >= |revisions| { outcome := None; return; }
      var id := inFlight.value;
      reviews := reviews + [ReviewRow(id, Agent, Some(Low), first, None),
          ReviewRow(id, Agent, Some(Low), second, None)];
      var asked := None;
      if AfterLows(first, second) == EscalateHigh {
        reviews := reviews + [ReviewRow(id, Agent, Some(High), high, None)];
        asked := Some(high);
      }
      assert reviews == old(reviews) + AgentRows(id, first, second, high);
      inFlight := None;
      var decided := Decide(revisions[id].baseline.None?, first, second, asked);
      Record(id, decided);
      outcome := Some(decided);
    }

    /** A human approves or rejects a revision in manual review. */
    method Judge(id: nat, approve: bool, rationale: string) returns (ok: bool)
      modifies this
      ensures Value() == DecideManually(old(Value()), id, approve, |rationale|)
      ensures ok == (8 <= |rationale| <= 4000 && id < |old(revisions)| && old(revisions)[id].state == ManualReview)
      ensures Inv(old(Value())) ==> Inv(Value())
    {
      EventKeepsIf(Value(), Decided(id, approve, |rationale|));
      ok := 8 <= |rationale| <= 4000 && id < |revisions| && revisions[id].state == ManualReview;
      if !ok { return; }
      revisions := revisions[id := revisions[id].(state := if approve then Approved
          else Rejected, decidedAt := Some(now))];
      now := now + 1;
      reviews := reviews + [ReviewRow(id, Human, None, if approve then Approve else Reject, None)];
    }

    /** Send a revision in manual review back to the agents. */
    method ReviewAgain(id: nat) returns (ok: bool)
      modifies this
      ensures Value() == Retry(old(Value()), id)
      ensures ok == (id < |old(revisions)| && old(revisions)[id].state == ManualReview)
      ensures Inv(old(Value())) ==> Inv(Value())
    {
      EventKeepsIf(Value(), Retried(id));
      ok := id < |revisions| && revisions[id].state == ManualReview;
      if ok {
        revisions := revisions[id := revisions[id].(state := PendingReview, decidedAt := None)];
        now := now + 1;
      }
    }
  }
}
