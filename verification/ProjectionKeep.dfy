/** Model of internal/publicprofile/keep.go and of the gate of the projection PUT in
    internal/hosted/public_profile_http.go: which uploaded snapshot may replace the
    stored one, and what no accepted upload can undo. */
module ProjectionKeep {
  import opened Snapshots
  import opened Wrappers

  function CoverageRank(s: Status): int {
    match s
    case Available => 3
    case Partial => 2
    case Unavailable => 1
  }

  /** The agents as a map: of rows with one id the last one stands. */
  function AgentsOf(rows: seq<Breakdown>): map<string, Breakdown> {
    if rows == [] then map[] else AgentsOf(rows[..|rows| - 1])[rows[|rows| - 1].id := rows[|rows| - 1]]
  }

  predicate StillMeasured(next: Snapshot, id: string) {
    id in AgentsOf(next.agents) && MeasuredAgent(AgentsOf(next.agents)[id])
  }

  /** Some previously measured agent is now missing or unmeasured. */
  predicate Lost(prev: Snapshot, next: Snapshot) {
    exists i :: 0 <= i < |prev.agents| && MeasuredAgent(prev.agents[i]) && !StillMeasured(next, prev.agents[i].id)
  }

  predicate HeldAccountObservation(prev: Breakdown, next: Breakdown) {
    && next.coverage.accountApi && next.coverage.reason == NoReason && next.coverage.tokens == Partial
    && next.coverage.window.Some? && next.coverage.window.value.name == "account usage"
       && next.coverage.window.value.to != ""
    && prev.totals.total.Some? && next.totals.total.Some?
    && next.totals.total.value >= prev.totals.total.value
  }

  predicate Weaker(prev: Breakdown, next: Breakdown) {
    CoverageRank(next.coverage.tokens) < CoverageRank(prev.coverage.tokens)
    || CoverageRank(next.totals.status) < CoverageRank(prev.totals.status)
  }

  /** Some agent was measured, and each that was still is, no weaker unless held. */
  predicate SetHeld(prev: Snapshot, next: Snapshot) {
    && (exists i :: 0 <= i < |prev.agents| && MeasuredAgent(prev.agents[i]))
    && forall i :: 0 <= i < |prev.agents| && MeasuredAgent(prev.agents[i]) ==> HoldsAgent(prev.agents[i], next)
  }

  predicate HoldsAgent(row: Breakdown, next: Snapshot) {
    StillMeasured(next, row.id)
    && (Weaker(row, AgentsOf(next.agents)[row.id]) ==> HeldAccountObservation(row, AgentsOf(next.agents)[row.id]))
  }

  /** ShouldReplaceProjection. */
  predicate ShouldReplace(prev: Snapshot, next: Snapshot) {
    prev.id == "" || (!Lost(prev, next)
                      && (CoverageRank(next.status) < CoverageRank(prev.status) ==> SetHeld(prev, next)))
  }

  /** tokenRegressed: a lower total, or a known one that became unknown. */
  predicate TokenRegressed(prev: Snapshot, next: Snapshot) {
    prev.total.Some? && (next.total.None? || next.total.value < prev.total.value)
  }

  // ---------- the stored projection over a run of uploads ----------

  /** What a decoded upload has to be before it is looked at. */
  predicate WellFormed(s: Snapshot) {
    s.id != "" && s.asOf.Some?
  }

  /** One PUT: its read, comparison and save taken as one step. */
  function Put(stored: Option<Snapshot>, snap: Snapshot): Option<Snapshot> {
    if !WellFormed(snap) then stored
    else if stored.Some? && (!ShouldReplace(stored.value, snap) || TokenRegressed(stored.value, snap)) then stored
    else Some(snap)
  }

  /** Uploads that are stored one after another. */
  function PutAll(stored: Option<Snapshot>, uploads: seq<Snapshot>): Option<Snapshot> {
    if uploads == [] then stored else Put(PutAll(stored, uploads[..|uploads| - 1]), uploads[|uploads| - 1])
  }

  /** The stored projection after the first n uploads. */
  function Stored(uploads: seq<Snapshot>, n: nat): Option<Snapshot>
    requires n <= |uploads|
  {
    if n == 0 then None else Put(Stored(uploads, n - 1), uploads[n - 1])
  }

  /** Unknown is below every known total. */
  predicate TotalLeq(a: Option<int>, b: Option<int>) {
    a.Some? ==> b.Some? && a.value <= b.value
  }

  function StoredTotal(p: Option<Snapshot>): Option<int> {
    if p.None? then None else p.value.total
  }

  predicate Measures(s: Snapshot, id: string) {
    exists i :: 0 <= i < |s.agents| && s.agents[i].id == id && MeasuredAgent(s.agents[i])
  }

  lemma {:induction false} AgentIsRow(rows: seq<Breakdown>, id: string)
    requires id in AgentsOf(rows)
    ensures exists i :: 0 <= i < |rows| && rows[i].id == id && rows[i] == AgentsOf(rows)[id]
  {
    if rows[|rows| - 1].id != id {
      AgentIsRow(rows[..|rows| - 1], id);
      var i :| 0 <= i < |rows| - 1 && rows[..|rows| - 1][i].id == id && rows[..|rows| - 1][i] == AgentsOf(rows)[id];
      assert rows[i].id == id;
    }
  }

  ghost predicate Upholds(before: Option<Snapshot>, after: Option<Snapshot>) {
    && TotalLeq(StoredTotal(before), StoredTotal(after))
    && (before.Some? ==> after.Some? && forall id :: Measures(before.value, id) ==> Measures(after.value, id))
    && (after.Some? ==> WellFormed(after.value))
  }

  lemma PutUpholds(stored: Option<Snapshot>, snap: Snapshot)
    requires stored.Some? ==> WellFormed(stored.value)
    ensures Upholds(stored, Put(stored, snap))
  {
    if stored.Some? && Put(stored, snap) == Some(snap) && ShouldReplace(stored.value, snap) {
      forall id | Measures(stored.value, id) ensures Measures(snap, id) {
        AgentStaysMeasured(stored.value, snap, id);
      }
    }
  }

  lemma AgentStaysMeasured(prev: Snapshot, next: Snapshot, id: string)
    requires prev.id != "" && ShouldReplace(prev, next) && Measures(prev, id)
    ensures Measures(next, id)
  {
    var i :| 0 <= i < |prev.agents| && prev.agents[i].id == id && MeasuredAgent(prev.agents[i]);
    assert StillMeasured(next, prev.agents[i].id);
    AgentIsRow(next.agents, id);
  }

  /** Over every run of uploads the stored total never goes down nor back to unknown,
      and an agent once measured stays measured. */
  lemma {:induction false} NothingIsLost(uploads: seq<Snapshot>, i: nat, j: nat)
    requires i <= j <= |uploads|
    ensures Upholds(Stored(uploads, i), Stored(uploads, j))
    decreases j
  {
    if i == j {
      StoredIsWellFormed(uploads, i);
    } else {
      NothingIsLost(uploads, i, j - 1);
      PutUpholds(Stored(uploads, j - 1), uploads[j - 1]);
    }
  }

  lemma {:induction false} StoredIsWellFormed(uploads: seq<Snapshot>, n: nat)
    requires n <= |uploads|
    ensures Stored(uploads, n).Some? ==> WellFormed(Stored(uploads, n).value)
  {
    if n > 0 {
      StoredIsWellFormed(uploads, n - 1);
    }
  }

  /** Uploading the stored snapshot again is accepted, as long as it lists an agent once. */
  lemma RepeatIsAccepted(s: Snapshot)
    requires forall i, k :: 0 <= i < k < |s.agents| ==> s.agents[i].id != s.agents[k].id
    ensures ShouldReplace(s, s) && !TokenRegressed(s, s)
  {
    forall i | 0 <= i < |s.agents|
      ensures s.agents[i].id in AgentsOf(s.agents) && AgentsOf(s.agents)[s.agents[i].id] == s.agents[i]
    {
      DistinctRow(s.agents, i);
    }
  }

  lemma {:induction false} DistinctRow(rows: seq<Breakdown>, i: nat)
    requires i < |rows| && forall a, b :: 0 <= a < b < |rows| ==> rows[a].id != rows[b].id
    ensures rows[i].id in AgentsOf(rows) && AgentsOf(rows)[rows[i].id] == rows[i]
  {
    var n := |rows| - 1;
    if i < n {
      assert rows[..n][i] == rows[i];
      DistinctRow(rows[..n], i);
    }
  }

  // ---------- the rule, said with the fields ----------

  predicate Worse(a: Status, b: Status) {
    (a == Partial && b == Available) || (a == Unavailable && b != Unavailable)
  }

  /** A measured agent has a positive total, a status, and no reason that unmeasures it. */
  predicate HasTotal(row: Breakdown) {
    && row.totals.total.GetOr(0) > 0
    && row.totals.status in {Available, Partial} && row.coverage.tokens in {Available, Partial}
    && row.coverage.reason in {NoReason, OtherReason}
  }

  /** A reading that got worse may stand for an agent only as a reused account total that did not
      shrink. */
  predicate StandsIn(was: Breakdown, now: Breakdown) {
    Worse(now.coverage.tokens, was.coverage.tokens) || Worse(now.totals.status, was.totals.status) ==>
      && now.coverage == Coverage(Partial, true, now.coverage.window, NoReason)
      && now.coverage.window.Some? && now.coverage.window.value.name == "account usage"
      && |now.coverage.window.value.to| > 0 && now.totals.total.Some? && was.totals.total.Some?
      && was.totals.total.value <= now.totals.total.value
  }

  /** Whether an upload may replace what is stored: anything replaces an empty one; every agent that
      was measured has to be so still; and a snapshot of a worse status may only come when some
      agent was measured and each that was has a reading that may stand for it. */
  lemma ReplacesIff(prev: Snapshot, next: Snapshot)
    ensures ShouldReplace(prev, next) <==>
              || prev.id == ""
              || (var now := AgentsOf(next.agents);
                  && (forall row :: row in prev.agents && HasTotal(row) ==> row.id in now && HasTotal(now[row.id]))
                  && (Worse(next.status, prev.status) ==>
                        && (exists row :: row in prev.agents && HasTotal(row))
                        && forall row :: row in prev.agents && HasTotal(row) ==> StandsIn(row, now[row.id])))
  {
    assert forall row :: MeasuredAgent(row) <==> HasTotal(row);
    assert forall a, b :: CoverageRank(a) < CoverageRank(b) <==> Worse(a, b);
    var now := AgentsOf(next.agents);
    assert Lost(prev, next) <==>
           exists row :: row in prev.agents && HasTotal(row) && !(row.id in now && HasTotal(now[row.id]));
    hide AgentsOf;
    hide MeasuredAgent;
    if !Lost(prev, next) {
      forall row | row in prev.agents && HasTotal(row) ensures HoldsAgent(row, next) <==> StandsIn(row, now[row.id]) {
      }
      assert SetHeld(prev, next) <==>
             && (exists row :: row in prev.agents && HasTotal(row))
             && forall row :: row in prev.agents && HasTotal(row) ==> HoldsAgent(row, next);
    }
  }

  /** Of rows with one id the last one stands. */
  lemma {:induction false} LastRowStands(rows: seq<Breakdown>, i: nat)
    requires i < |rows| && forall k :: i < k < |rows| ==> rows[k].id != rows[i].id
    ensures rows[i].id in AgentsOf(rows) && AgentsOf(rows)[rows[i].id] == rows[i]
  {
    var n := |rows| - 1;
    if i < n {
      assert rows[..n][i] == rows[i];
      LastRowStands(rows[..n], i);
    }
  }

  // ---------- the program ----------

  method MapAgents(rows: seq<Breakdown>) returns (agents: map<string, Breakdown>)
    ensures agents == AgentsOf(rows)
  {
    agents := map[];
    for i := 0 to |rows|
      invariant agents == AgentsOf(rows[..i])
    {
      assert rows[..i + 1][..i] == rows[..i];
      agents := agents[rows[i].id := rows[i]];
    }
    assert rows[..|rows|] == rows;
  }

  /** lostMeasuredProvider. */
  method LostMeasuredProvider(prev: Snapshot, next: Snapshot) returns (lost: bool)
    ensures lost == Lost(prev, next)
  {
    var agents := MapAgents(next.agents);
    for i := 0 to |prev.agents|
      invariant forall k :: 0 <= k < i && MeasuredAgent(prev.agents[k]) ==> StillMeasured(next, prev.agents[k].id)
    {
      var row := prev.agents[i];
      if !MeasuredAgent(row) {
        continue;
      }
      if row.id !in agents || !MeasuredAgent(agents[row.id]) {
        return true;
      }
    }
    return false;
  }

  /** measuredSetHeld. */
  method MeasuredSetHeld(prev: Snapshot, next: Snapshot) returns (held: bool)
    ensures held == SetHeld(prev, next)
  {
    var agents := MapAgents(next.agents);
    held := false;
    for i := 0 to |prev.agents|
      invariant held == exists k :: 0 <= k < i && MeasuredAgent(prev.agents[k])
      invariant forall k :: 0 <= k < i && MeasuredAgent(prev.agents[k]) ==> HoldsAgent(prev.agents[k], next)
    {
      var row := prev.agents[i];
      if !MeasuredAgent(row) {
        continue;
      }
      held := true;
      if row.id !in agents || !MeasuredAgent(agents[row.id]) {
        return false;
      }
      if Weaker(row, agents[row.id]) && !HeldAccountObservation(row, agents[row.id]) {
        return false;
      }
    }
  }

  /** ShouldReplaceProjection, in its order of tests. */
  method ShouldReplaceProjection(prev: Snapshot, next: Snapshot) returns (ok: bool)
    ensures ok == ShouldReplace(prev, next)
  {
    if prev.id == "" {
      return true;
    }
    var lost := LostMeasuredProvider(prev, next);
    if lost {
      return false;
    }
    var held := MeasuredSetHeld(prev, next);
    return !(CoverageRank(next.status) < CoverageRank(prev.status) && !held);
  }
}
