/** The publication protocol of internal/hosted as a state machine over the rows of one
    owner: uploads, each a comparison and a later save, intents, and any number of server
    processes that each run one publish job at a time (publishMu) in the steps of
    publish_job.go. */
module WallProtocol {
  import opened Clock
  import opened PublishPolicy
  import opened Snapshots
  import opened WallStore
  import opened Wrappers
  import K = ProjectionKeep

  const LEASE: int := 2 * MINUTE

  /** A job has read its row, then holds a lease, then has stamped. */
  datatype Job = Reading(snap: Snapshot) | Holding(snap: Snapshot, token: string, start: int)
               | Stamped(snap: Snapshot, token: string)

  /** An upload that passed its comparison with the row it read, and is not saved yet. One
      whose read failed was compared with nothing. */
  datatype Upload = Upload(snap: Snapshot, against: Option<Snapshot>)

  datatype World = World(rows: Rows, jobs: map<int, Job>, uploads: map<int, Upload>)

  datatype Step = Compare(u: int, snap: Snapshot)
                | Blind(u: int, snap: Snapshot)
                | Save(u: int)
                | Abandon(u: int)
                | Intend(desired: string, status: ReadmeStatus, reason: Why, due: Option<int>, retries: int)
                | Apply(id: string)
                | Read(p: int)
                | Acquire(p: int, token: string, start: int, now: int)
                | Present(p: int, palette: string)
                | Stamp(p: int, now: int)
                | Finish(p: int)
                | Restart(p: int)

  function StoredSnap(r: Rows): Option<Snapshot> {
    if r.projection.None? then None else Some(r.projection.value.snap)
  }

  /** The comparison of an upload with the row it read. */
  predicate Passes(r: Rows, snap: Snapshot) {
    && K.WellFormed(snap)
    && (r.projection.Some? ==>
          K.ShouldReplace(r.projection.value.snap, snap) && !K.TokenRegressed(r.projection.value.snap, snap))
  }

  /** An upload with nothing between its comparison and its save. */
  function Putting(r: Rows, snap: Snapshot): Rows {
    if Passes(r, snap) then Saving(r, snap) else r
  }

  predicate Holds(w: World, p: int) {
    p in w.jobs && w.jobs[p].Holding?
  }

  function Next(w: World, s: Step): World {
    match s
    case Compare(u, snap) =>
      if u in w.uploads || !Passes(w.rows, snap) then w
      else w.(uploads := w.uploads[u := Upload(snap, StoredSnap(w.rows))])
    case Blind(u, snap) =>
      if u in w.uploads || !K.WellFormed(snap) then w else w.(uploads := w.uploads[u := Upload(snap, None)])
    case Save(u) =>
      if u !in w.uploads then w
      else w.(rows := Saving(w.rows, w.uploads[u].snap), uploads := w.uploads - {u})
    case Abandon(u) => w.(uploads := w.uploads - {u})
    case Intend(desired, status, reason, due, retries) =>
      w.(rows := Intending(w.rows, desired, status, reason, due, retries))
    case Apply(id) => w.(rows := Applying(w.rows, id))
    case Read(p) =>
      if p in w.jobs || w.rows.projection.None? then w
      else w.(jobs := w.jobs[p := Reading(w.rows.projection.value.snap)])
    case Acquire(p, token, start, now) => Acquired(w, p, token, start, now)
    case Present(p, palette) => if Holds(w, p) then w.(rows := Presenting(w.rows, palette)) else w
    case Stamp(p, now) => StampedBy(w, p, now)
    case Finish(p) => Finished(w, p)
    case Restart(p) => w.(rows := Backfilling(w.rows), jobs := w.jobs - {p})
  }

  function Acquired(w: World, p: int, token: string, start: int, now: int): World {
    if p !in w.jobs || !w.jobs[p].Reading? then w
    else if !LeaseFree(w.rows, token, now) then w.(jobs := w.jobs - {p})
    else w.(rows := Acquiring(w.rows, token, start + LEASE, now),
            jobs := w.jobs[p := Holding(w.jobs[p].snap, token, start)])
  }

  function StampedBy(w: World, p: int, now: int): World {
    if !Holds(w, p) then w
    else
      var j := w.jobs[p];
      w.(rows := Stamping(w.rows, j.snap, j.token, j.start, now), jobs := w.jobs[p := Stamped(j.snap, j.token)])
  }

  /** The job ends, however it went; a lease it still holds is given back. */
  function Finished(w: World, p: int): World {
    if p !in w.jobs then w
    else w.(rows := if w.jobs[p].Reading? then w.rows else Releasing(w.rows, w.jobs[p].token), jobs := w.jobs - {p})
  }

  function Run(w: World, steps: seq<Step>, n: nat): World
    requires n <= |steps|
  {
    if n == 0 then w else Next(Run(w, steps, n - 1), steps[n - 1])
  }

  /** A fresh deployment, or one whose wall is not ahead of its projection. */
  predicate Quiet(w: World) {
    w.jobs == map[] && w.uploads == map[] && Named(w.rows) && K.TotalLeq(WallTotal(w.rows), StoredTotal(w.rows))
  }

  /** A stored snapshot has an id; uploads without one are rejected. */
  predicate Named(r: Rows) {
    r.projection.Some? ==> r.projection.value.snap.id != ""
  }

  // ---------- uploads that overlap ----------

  /** The step saves an upload over another row than the one it was compared with, or
      over a row although it was compared with none. */
  predicate Races(w: World, s: Step) {
    s.Save? && s.u in w.uploads && w.uploads[s.u].against != StoredSnap(w.rows)
  }

  predicate RacesAt(w: World, steps: seq<Step>, k: nat)
    requires k < |steps|
  {
    Races(Run(w, steps, k), steps[k])
  }

  ghost predicate Unraced(w: World, steps: seq<Step>) {
    forall k :: 0 <= k < |steps| ==> !RacesAt(w, steps, k)
  }

  /** Every upload is compared, and saved or given up before the next one is compared. */
  ghost predicate OneByOne(w: World, steps: seq<Step>) {
    forall k :: 0 <= k < |steps| ==>
      !steps[k].Blind? && (steps[k].Compare? ==> Run(w, steps, k).uploads == map[])
  }

  /** At most one upload waits, and what it was compared with is still stored. */
  ghost predicate OneWaits(w: World) {
    && (forall u :: u in w.uploads ==> w.uploads[u].against == StoredSnap(w.rows))
    && forall u, t :: u in w.uploads && t in w.uploads ==> u == t
  }

  lemma NextStillWaits(w: World, s: Step)
    requires OneWaits(w) && !s.Blind? && (s.Compare? ==> w.uploads == map[])
    ensures OneWaits(Next(w, s))
  {
    if s.Save? && s.u in w.uploads {
      assert forall t :: t !in Next(w, s).uploads;
    }
  }

  lemma {:induction false} OneUploadWaits(w: World, steps: seq<Step>, n: nat)
    requires w.uploads == map[] && OneByOne(w, steps) && n <= |steps|
    ensures OneWaits(Run(w, steps, n))
  {
    if n > 0 {
      OneUploadWaits(w, steps, n - 1);
      NextStillWaits(Run(w, steps, n - 1), steps[n - 1]);
    }
  }

  /** Uploads that do not overlap do not race. */
  lemma OneByOneIsUnraced(w: World, steps: seq<Step>)
    requires w.uploads == map[] && OneByOne(w, steps)
    ensures Unraced(w, steps)
  {
    forall k | 0 <= k < |steps| ensures !RacesAt(w, steps, k) {
      OneUploadWaits(w, steps, k);
    }
  }

  // ---------- the wall never gets ahead of the projection ----------

  function TotalOf(snap: Option<Snapshot>): Option<int> {
    if snap.None? then None else snap.value.total
  }

  /** The wall is not above what is stored, and neither is what any job has read. */
  ghost predicate Behind(w: World) {
    RowsBehind(w.rows) && JobsBehind(w) && UploadsNamed(w)
  }

  predicate RowsBehind(r: Rows) {
    Named(r) && K.TotalLeq(WallTotal(r), StoredTotal(r))
  }

  ghost predicate JobsBehind(w: World) {
    forall p :: p in w.jobs ==> w.jobs[p].snap.id != "" && K.TotalLeq(w.jobs[p].snap.total, StoredTotal(w.rows))
  }

  ghost predicate UploadsNamed(w: World) {
    forall u :: u in w.uploads ==>
      w.uploads[u].snap.id != "" && K.TotalLeq(TotalOf(w.uploads[u].against), w.uploads[u].snap.total)
  }

  lemma SavingGrows(r: Rows, up: Upload)
    requires K.TotalLeq(TotalOf(up.against), up.snap.total) && up.against == StoredSnap(r)
    ensures K.TotalLeq(StoredTotal(r), StoredTotal(Saving(r, up.snap)))
    ensures WallTotal(Saving(r, up.snap)) == WallTotal(r)
  {
  }

  lemma BackfillingGrows(r: Rows)
    requires K.TotalLeq(WallTotal(r), StoredTotal(r))
    ensures K.TotalLeq(WallTotal(r), WallTotal(Backfilling(r))) && K.TotalLeq(WallTotal(Backfilling(r)), StoredTotal(r))
    ensures Backfilling(r).projection == r.projection
  {
  }

  lemma StampingShows(r: Rows, snap: Snapshot, token: string, start: int, now: int)
    requires snap.id != ""
    ensures WallTotal(Stamping(r, snap, token, start, now)) ==
            if StampLands(r, snap.id, token, start) then snap.total else WallTotal(r)
    ensures Stamping(r, snap, token, start, now).projection == r.projection
  {
  }

  lemma NextKeepsRowsBehind(w: World, s: Step)
    requires Behind(w) && !Races(w, s)
    ensures RowsBehind(Next(w, s).rows) && K.TotalLeq(StoredTotal(w.rows), StoredTotal(Next(w, s).rows))
  {
    match s
    case Save(u) => if u in w.uploads { SavingGrows(w.rows, w.uploads[u]); }
    case Restart(_) => BackfillingGrows(w.rows);
    case Stamp(p, now) =>
      if Holds(w, p) {
        StampingShows(w.rows, w.jobs[p].snap, w.jobs[p].token, w.jobs[p].start, now);
      }
    case _ =>
  }

  lemma NextStaysBehind(w: World, s: Step)
    requires Behind(w) && !Races(w, s)
    ensures Behind(Next(w, s)) && K.TotalLeq(StoredTotal(w.rows), StoredTotal(Next(w, s).rows))
  {
    NextKeepsRowsBehind(w, s);
    assert JobsBehind(Next(w, s));
    assert UploadsNamed(Next(w, s));
  }

  /** With any number of processes, crashes and failures, the verified total is never
      above the stored projection's, as long as no upload races. */
  lemma {:induction false} NeverAhead(w: World, steps: seq<Step>, n: nat)
    requires Quiet(w) && Unraced(w, steps) && n <= |steps|
    ensures Behind(Run(w, steps, n))
  {
    if n > 0 {
      NeverAhead(w, steps, n - 1);
      assert !RacesAt(w, steps, n - 1);
      NextStaysBehind(Run(w, steps, n - 1), steps[n - 1]);
    }
  }

  /** Nor does the stored total ever go down. */
  lemma {:induction false} StoredOnlyGrows(w: World, steps: seq<Step>, i: nat, j: nat)
    requires Quiet(w) && Unraced(w, steps) && i <= j <= |steps|
    ensures K.TotalLeq(StoredTotal(Run(w, steps, i).rows), StoredTotal(Run(w, steps, j).rows))
    decreases j
  {
    if i < j {
      StoredOnlyGrows(w, steps, i, j - 1);
      NeverAhead(w, steps, j - 1);
      assert !RacesAt(w, steps, j - 1);
      NextStaysBehind(Run(w, steps, j - 1), steps[j - 1]);
    }
  }

  /** A waiting upload is not below the row it was compared with. */
  ghost predicate Compared(w: World) {
    forall u :: u in w.uploads ==> K.TotalLeq(TotalOf(w.uploads[u].against), w.uploads[u].snap.total)
  }

  lemma {:induction false} RunKeepsCompared(w: World, steps: seq<Step>, n: nat)
    requires w.uploads == map[] && n <= |steps|
    ensures Compared(Run(w, steps, n))
  {
    if n > 0 {
      RunKeepsCompared(w, steps, n - 1);
    }
  }

  /** In any run at all, a step lowers the stored total exactly when it saves an upload
      that raced and is below what is stored by then. */
  lemma StoredDropsIff(w: World, steps: seq<Step>, k: nat)
    requires w.uploads == map[] && k < |steps|
    ensures var v := Run(w, steps, k);
            !K.TotalLeq(StoredTotal(v.rows), StoredTotal(Run(w, steps, k + 1).rows))
            <==> RacesAt(w, steps, k) && !K.TotalLeq(StoredTotal(v.rows), v.uploads[steps[k].u].snap.total)
  {
    RunKeepsCompared(w, steps, k);
    StepDropsIff(Run(w, steps, k), steps[k]);
  }

  lemma StepDropsIff(w: World, s: Step)
    requires Compared(w)
    ensures !K.TotalLeq(StoredTotal(w.rows), StoredTotal(Next(w, s).rows))
            <==> Races(w, s) && !K.TotalLeq(StoredTotal(w.rows), w.uploads[s.u].snap.total)
  {
    if s.Save? && s.u in w.uploads && !Races(w, s) {
      SavingGrows(w.rows, w.uploads[s.u]);
    }
  }

  // ---------- one process ----------

  predicate ByProcess(s: Step, p: int) {
    match s
    case Compare(_, _) => true
    case Blind(_, _) => true
    case Save(_) => true
    case Abandon(_) => true
    case Intend(_, _, _, _, _) => true
    case Apply(_) => true
    case Read(q) => q == p
    case Acquire(q, _, _, _) => q == p
    case Present(q, _) => q == p
    case Stamp(q, _) => q == p
    case Finish(q) => q == p
    case Restart(q) => q == p
  }

  predicate OneProcess(steps: seq<Step>, p: int) {
    forall k :: 0 <= k < |steps| ==> ByProcess(steps[k], p)
  }

  /** The only job is p's, and what it read is not below the wall. */
  ghost predicate Alone(w: World, p: int) {
    && Behind(w)
    && forall q :: q in w.jobs ==> q == p && K.TotalLeq(WallTotal(w.rows), w.jobs[q].snap.total)
  }

  lemma NextStaysAlone(w: World, s: Step, p: int)
    requires Alone(w, p) && ByProcess(s, p) && !Races(w, s)
    ensures Alone(Next(w, s), p) && K.TotalLeq(WallTotal(w.rows), WallTotal(Next(w, s).rows))
  {
    NextStaysBehind(w, s);
    match s
    case Save(u) => if u in w.uploads { SavingGrows(w.rows, w.uploads[u]); }
    case Restart(_) => BackfillingGrows(w.rows);
    case Stamp(q, now) =>
      if Holds(w, q) {
        StampingShows(w.rows, w.jobs[q].snap, w.jobs[q].token, w.jobs[q].start, now);
      }
    case _ =>
  }

  lemma {:induction false} RunStaysAlone(w: World, steps: seq<Step>, n: nat, p: int)
    requires Quiet(w) && Unraced(w, steps) && OneProcess(steps, p) && n <= |steps|
    ensures Alone(Run(w, steps, n), p)
  {
    if n > 0 {
      RunStaysAlone(w, steps, n - 1, p);
      assert !RacesAt(w, steps, n - 1);
      NextStaysAlone(Run(w, steps, n - 1), steps[n - 1], p);
    }
  }

  /** The last step of a run does not lower the wall. */
  lemma LastStepKeepsWall(w: World, steps: seq<Step>, n: nat, p: int)
    requires 0 < n <= |steps| && Quiet(w) && Unraced(w, steps) && OneProcess(steps, p)
    ensures K.TotalLeq(WallTotal(Run(w, steps, n - 1).rows), WallTotal(Run(w, steps, n).rows))
  {
    RunStaysAlone(w, steps, n - 1, p);
    assert !RacesAt(w, steps, n - 1);
    NextStaysAlone(Run(w, steps, n - 1), steps[n - 1], p);
  }

  lemma {:induction false} WallOnlyGrows(w: World, steps: seq<Step>, i: nat, j: nat, p: int)
    requires i <= j <= |steps| && Quiet(w) && Unraced(w, steps) && OneProcess(steps, p)
    ensures K.TotalLeq(WallTotal(Run(w, steps, i).rows), WallTotal(Run(w, steps, j).rows))
    decreases j
  {
    if i < j {
      WallOnlyGrows(w, steps, i, j - 1, p);
      LastStepKeepsWall(w, steps, j, p);
    }
  }

  /** In every run of one server process without raced uploads the verified total never
      decreases, never turns unknown, and never exceeds the stored projection's total. */
  lemma OneProcessWall(w: World, steps: seq<Step>, i: nat, j: nat, p: int)
    requires Quiet(w) && Unraced(w, steps) && OneProcess(steps, p) && i <= j <= |steps|
    ensures K.TotalLeq(WallTotal(Run(w, steps, i).rows), WallTotal(Run(w, steps, j).rows))
    ensures K.TotalLeq(WallTotal(Run(w, steps, j).rows), StoredTotal(Run(w, steps, j).rows))
  {
    WallOnlyGrows(w, steps, i, j, p);
    RunStaysAlone(w, steps, j, p);
  }

  // ---------- fencing between processes ----------

  /** Lease tokens are fresh UUIDs. */
  predicate FreshTokens(steps: seq<Step>) {
    forall i, j :: 0 <= i < j < |steps| && steps[i].Acquire? && steps[j].Acquire? ==> steps[i].token != steps[j].token
  }

  /** Step k gave p's job the lease. */
  predicate Obtains(w: World, steps: seq<Step>, k: nat)
    requires k < |steps|
  {
    steps[k].Acquire? && var v := Run(w, steps, k); var s := steps[k];
    s.p in v.jobs && v.jobs[s.p].Reading? && LeaseFree(v.rows, s.token, s.now)
  }

  /** Step k is a stamp that changes the wall. */
  predicate Lands(w: World, steps: seq<Step>, k: nat)
    requires k < |steps|
  {
    steps[k].Stamp? && var v := Run(w, steps, k);
    Holds(v, steps[k].p) && var j := v.jobs[steps[k].p]; StampLands(v.rows, j.snap.id, j.token, j.start)
  }

  lemma TokenOnlyFromAcquire(w: World, s: Step, token: string)
    requires Leased(Next(w, s).rows, token)
    ensures Leased(w.rows, token) || (s.Acquire? && s.token == token && s.p in w.jobs && w.jobs[s.p].Reading?)
    ensures s.Acquire? && s.p in w.jobs && w.jobs[s.p].Reading? && LeaseFree(w.rows, s.token, s.now) ==>
            s.token == token
  {
  }

  /** A token seen after its only acquisition was held all the way. */
  lemma {:induction false} HeldThroughout(w: World, steps: seq<Step>, i: nat, k: nat, m: nat)
    requires i < m <= k <= |steps| && steps[i].Acquire? && FreshTokens(steps)
    requires Leased(Run(w, steps, k).rows, steps[i].token)
    ensures Leased(Run(w, steps, m).rows, steps[i].token)
    decreases k - m
  {
    if m < k {
      HeldThroughout(w, steps, i, k, m + 1);
      TokenOnlyFromAcquire(Run(w, steps, m), steps[m], steps[i].token);
    }
  }

  lemma TokenOnlyFromOwnAcquire(w: World, s: Step, p: int, token: string)
    requires p in Next(w, s).jobs && Next(w, s).jobs[p].Holding? && Next(w, s).jobs[p].token == token
    ensures (s.Acquire? && s.p == p && s.token == token) || (p in w.jobs && w.jobs[p] == Next(w, s).jobs[p])
  {
  }

  /** A job's token is one its own process acquired. */
  lemma {:induction false} TokenIsOwn(w: World, steps: seq<Step>, n: nat, p: int) returns (i: nat)
    requires w.jobs == map[] && n <= |steps| && Holds(Run(w, steps, n), p)
    ensures i < n && steps[i].Acquire? && steps[i].p == p && steps[i].token == Run(w, steps, n).jobs[p].token
  {
    var v := Run(w, steps, n - 1);
    TokenOnlyFromOwnAcquire(v, steps[n - 1], p, Run(w, steps, n).jobs[p].token);
    if steps[n - 1].Acquire? && steps[n - 1].p == p && steps[n - 1].token == Run(w, steps, n).jobs[p].token {
      i := n - 1;
    } else {
      i := TokenIsOwn(w, steps, n - 1, p);
    }
  }

  /** A job that still holds its token has held it, unstamped, since it acquired it. */
  lemma {:induction false} HoldingThroughout(w: World, steps: seq<Step>, i: nat, k: nat, m: nat, p: int)
    requires i < m <= k <= |steps| && steps[i].Acquire? && FreshTokens(steps)
    requires Holds(Run(w, steps, k), p) && Run(w, steps, k).jobs[p].token == steps[i].token
    ensures Holds(Run(w, steps, m), p) && Run(w, steps, m).jobs[p] == Run(w, steps, k).jobs[p]
    decreases k - m
  {
    if m < k {
      HoldingThroughout(w, steps, i, k, m + 1, p);
      TokenOnlyFromOwnAcquire(Run(w, steps, m), steps[m], p, steps[i].token);
    }
  }

  /** A stamp takes effect only if, since its job acquired the lease, no other token did,
      and no other stamp took effect. */
  lemma Fencing(w: World, steps: seq<Step>, i: nat, k: nat, m: nat)
    requires w.jobs == map[] && FreshTokens(steps) && i < m < k < |steps|
    requires Obtains(w, steps, i) && Lands(w, steps, k) && Run(w, steps, k).jobs[steps[k].p].token == steps[i].token
    ensures !Obtains(w, steps, m) && !Lands(w, steps, m)
  {
    hide Run;
    hide StampLands;
    HeldBetween(w, steps, i, k, m);
    HeldBetween(w, steps, i, k, m + 1);
    NoOtherObtains(w, steps, i, m);
    if Lands(w, steps, m) {
      NoOtherLands(w, steps, i, k, m);
    }
  }

  lemma HeldBetween(w: World, steps: seq<Step>, i: nat, k: nat, m: nat)
    requires FreshTokens(steps) && i < m <= k < |steps| && steps[i].Acquire? && Lands(w, steps, k)
    requires Run(w, steps, k).jobs[steps[k].p].token == steps[i].token
    ensures Leased(Run(w, steps, m).rows, steps[i].token)
  {
    HeldThroughout(w, steps, i, k, m);
  }

  lemma NoOtherObtains(w: World, steps: seq<Step>, i: nat, m: nat)
    requires i < m < |steps| && steps[i].Acquire? && FreshTokens(steps)
    requires Leased(Run(w, steps, m + 1).rows, steps[i].token)
    ensures !Obtains(w, steps, m)
  {
    TokenOnlyFromAcquire(Run(w, steps, m), steps[m], steps[i].token);
  }

  lemma NoOtherLands(w: World, steps: seq<Step>, i: nat, k: nat, m: nat)
    requires w.jobs == map[] && FreshTokens(steps) && i < m < k < |steps| && steps[i].Acquire?
    requires steps[k].Stamp? && Holds(Run(w, steps, k), steps[k].p)
    requires Run(w, steps, k).jobs[steps[k].p].token == steps[i].token && Leased(Run(w, steps, m).rows, steps[i].token)
    ensures !Lands(w, steps, m)
  {
    if Lands(w, steps, m) {
      var a := TokenIsOwn(w, steps, m, steps[m].p);
      var b := TokenIsOwn(w, steps, k, steps[k].p);
      assert a == i && b == i;
      HoldingThroughout(w, steps, i, k, m + 1, steps[k].p);
    }
  }

  lemma WallOnlyFromStamp(w: World, s: Step)
    requires !s.Restart?
    ensures WallTotal(Next(w, s).rows) == WallTotal(w.rows)
            || (s.Stamp? && Holds(w, s.p)
                && StampLands(w.rows, w.jobs[s.p].snap.id, w.jobs[s.p].token, w.jobs[s.p].start))
  {
  }

  lemma {:induction false} WallStillSince(w: World, steps: seq<Step>, i: nat, k: nat, m: nat)
    requires w.jobs == map[] && FreshTokens(steps) && i <= m <= k < |steps|
    requires Obtains(w, steps, i) && Lands(w, steps, k) && Run(w, steps, k).jobs[steps[k].p].token == steps[i].token
    requires forall l :: i < l < k ==> !steps[l].Restart?
    ensures WallTotal(Run(w, steps, m).rows) == WallTotal(Run(w, steps, i).rows)
    decreases m
  {
    if i < m {
      WallStillSince(w, steps, i, k, m - 1);
      StillOneMore(w, steps, i, k, m - 1);
    }
  }

  lemma StillOneMore(w: World, steps: seq<Step>, i: nat, k: nat, m: nat)
    requires w.jobs == map[] && FreshTokens(steps) && i <= m < k < |steps| && (i < m ==> !steps[m].Restart?)
    requires Obtains(w, steps, i) && Lands(w, steps, k) && Run(w, steps, k).jobs[steps[k].p].token == steps[i].token
    ensures WallTotal(Run(w, steps, m + 1).rows) == WallTotal(Run(w, steps, m).rows)
  {
    NoStampSince(w, steps, i, k, m);
    WallStillAt(w, steps, m);
  }

  lemma NoStampSince(w: World, steps: seq<Step>, i: nat, k: nat, m: nat)
    requires w.jobs == map[] && FreshTokens(steps) && i <= m < k < |steps|
    requires Obtains(w, steps, i) && Lands(w, steps, k) && Run(w, steps, k).jobs[steps[k].p].token == steps[i].token
    ensures !Lands(w, steps, m)
  {
    if i < m {
      Fencing(w, steps, i, k, m);
    }
  }

  lemma WallStillAt(w: World, steps: seq<Step>, m: nat)
    requires m < |steps| && !steps[m].Restart? && !Lands(w, steps, m)
    ensures WallTotal(Run(w, steps, m + 1).rows) == WallTotal(Run(w, steps, m).rows)
  {
    WallOnlyFromStamp(Run(w, steps, m), steps[m]);
  }

  /** Across processes a stamp that takes effect keeps the verified total from going down
      exactly when the wall was not already above the row its job had read when the job
      acquired the lease. */
  lemma StampKeepsTotalIff(w: World, steps: seq<Step>, i: nat, k: nat)
    requires w.jobs == map[] && FreshTokens(steps) && i < k < |steps|
    requires Obtains(w, steps, i) && Lands(w, steps, k) && Run(w, steps, k).jobs[steps[k].p].token == steps[i].token
    requires forall l :: i < l < k ==> !steps[l].Restart?
    requires Run(w, steps, k).jobs[steps[k].p].snap.id != ""
    ensures var read := Run(w, steps, k).jobs[steps[k].p].snap;
            K.TotalLeq(WallTotal(Run(w, steps, k).rows), WallTotal(Run(w, steps, k + 1).rows))
            <==> K.TotalLeq(WallTotal(Run(w, steps, i).rows), read.total)
  {
    WallStillSince(w, steps, i, k, k);
    var v := Run(w, steps, k);
    var j := v.jobs[steps[k].p];
    StampingShows(v.rows, j.snap, j.token, j.start, steps[k].now);
  }

  // ---------- pieces of concrete runs ----------

  lemma {:induction false} RunIgnoresRest(w: World, steps: seq<Step>, more: seq<Step>, n: nat)
    requires n <= |steps|
    ensures Run(w, steps + more, n) == Run(w, steps, n)
  {
    if n > 0 {
      RunIgnoresRest(w, steps, more, n - 1);
    }
  }

  lemma {:induction false} RunOn(w: World, steps: seq<Step>, more: seq<Step>, n: nat)
    requires n <= |more|
    ensures Run(w, steps + more, |steps| + n) == Run(Run(w, steps, |steps|), more, n)
  {
    if n == 0 {
      RunIgnoresRest(w, steps, more, |steps|);
    } else {
      RunOn(w, steps, more, n - 1);
      assert (steps + more)[|steps| + n - 1] == more[n - 1];
    }
  }

  function Uploading(u: int, snap: Snapshot): seq<Step> {
    [Compare(u, snap), Save(u)]
  }

  function Publishing(p: int, token: string): seq<Step> {
    [Read(p), Acquire(p, token, 0, 0), Present(p, "cobalt"), Stamp(p, 0), Finish(p)]
  }

  lemma UploadingSaves(w: World, u: int, snap: Snapshot)
    requires u !in w.uploads && Passes(w.rows, snap)
    ensures Run(w, Uploading(u, snap), 1) == w.(uploads := w.uploads[u := Upload(snap, StoredSnap(w.rows))])
    ensures Run(w, Uploading(u, snap), 2) == w.(rows := Saving(w.rows, snap))
  {
    assert Run(w, Uploading(u, snap), 0) == w;
    assert w.uploads[u := Upload(snap, StoredSnap(w.rows))] - {u} == w.uploads;
  }

  /** What the rows are once a snapshot was stored and published. */
  function Shown(snap: Snapshot): Rows {
    Rows(Some(Projection(snap, snap.id, NoStatus, NoWhy, None, 0, None, None)),
         Some(Presentation("cobalt", snap.id, Some(0), Some(snap.id), snap.total, snap.asOf)))
  }

  /** The rows hold snap, unleased, and show nothing that is too new to replace. */
  predicate Publishable(r: Rows, snap: Snapshot) {
    && snap.id != "" && r.projection == Some(Projection(snap, snap.id, NoStatus, NoWhy, None, 0, None, None))
    && (r.presentation.Some? ==> r.presentation.value.palette == "cobalt" && r.presentation.value.at == Some(0))
  }

  lemma PublishingShows(w: World, p: int, token: string, snap: Snapshot)
    requires p !in w.jobs && Publishable(w.rows, snap)
    ensures WallTotal(Run(w, Publishing(p, token), 4).rows) == snap.total
    ensures Run(w, Publishing(p, token), 5) == w.(rows := Shown(snap))
  {
    var steps := Publishing(p, token);
    var leased := w.rows.(projection := Some(w.rows.projection.value.(leaseToken := Some(token),
                                                                      leaseUntil := Some(LEASE))));
    assert Run(w, steps, 0) == w;
    assert Run(w, steps, 1) == w.(jobs := w.jobs[p := Reading(snap)]);
    assert w.jobs[p := Reading(snap)][p := Holding(snap, token, 0)] == w.jobs[p := Holding(snap, token, 0)];
    assert Run(w, steps, 2) == w.(rows := leased, jobs := w.jobs[p := Holding(snap, token, 0)]);
    PublishingEnds(Run(w, steps, 2), w, p, token, snap);
  }

  lemma PublishingEnds(v: World, w: World, p: int, token: string, snap: Snapshot)
    requires p !in w.jobs && Publishable(w.rows, snap) && v == Run(w, Publishing(p, token), 2)
    requires v.jobs == w.jobs[p := Holding(snap, token, 0)] && v.uploads == w.uploads
    requires v.rows.presentation == w.rows.presentation && v.rows.projection ==
             Some(w.rows.projection.value.(leaseToken := Some(token), leaseUntil := Some(LEASE)))
    ensures WallTotal(Run(w, Publishing(p, token), 4).rows) == snap.total
    ensures Run(w, Publishing(p, token), 5) == w.(rows := Shown(snap))
  {
    var x := Next(v, Present(p, "cobalt"));
    var y := Next(x, Stamp(p, 0));
    assert Run(w, Publishing(p, token), 3) == x;
    assert Run(w, Publishing(p, token), 4) == y;
    assert Run(w, Publishing(p, token), 5) == Next(y, Finish(p));
    StampAndFinish(v, w, p, token, snap);
  }

  lemma StampAndFinish(v: World, w: World, p: int, token: string, snap: Snapshot)
    requires p !in w.jobs && Publishable(w.rows, snap)
    requires v.jobs == w.jobs[p := Holding(snap, token, 0)] && v.uploads == w.uploads
    requires v.rows.presentation == w.rows.presentation && v.rows.projection ==
             Some(w.rows.projection.value.(leaseToken := Some(token), leaseUntil := Some(LEASE)))
    ensures var y := Next(Next(v, Present(p, "cobalt")), Stamp(p, 0));
            WallTotal(y.rows) == snap.total && Next(y, Finish(p)) == w.(rows := Shown(snap))
  {
    var y := Next(Next(v, Present(p, "cobalt")), Stamp(p, 0));
    assert y.rows.presentation == Shown(snap).presentation;
    assert y.jobs == w.jobs[p := Stamped(snap, token)] && y.jobs - {p} == w.jobs;
  }

  const EMPTY := World(Rows(None, None), map[], map[])

  // ---------- two uploads that overlap ----------

  /** Upload 1 is compared, upload 2 is compared, saved and published, then upload 1 is
      saved, and published as well. */
  function LostRun(a: Snapshot, b: Snapshot): seq<Step> {
    [Compare(1, a), Compare(2, b), Save(2)] + Publishing(0, "one") + [Save(1)] + Publishing(0, "two")
  }

  /** On a single process two overlapping uploads can leave less stored than the wall
      shows, and the next publication then moves the wall back. */
  lemma LostUpdateDrops(a: Snapshot, b: Snapshot)
    requires K.WellFormed(a) && K.WellFormed(b) && a.total.Some? && b.total.Some? && a.total.value < b.total.value
    ensures var steps := LostRun(a, b);
            && OneProcess(steps, 0) && !Unraced(EMPTY, steps)
            && WallTotal(Run(EMPTY, steps, 9).rows) == b.total && StoredTotal(Run(EMPTY, steps, 9).rows) == a.total
            && WallTotal(Run(EMPTY, steps, 13).rows) == a.total
  {
    var first, second := [Compare(1, a), Compare(2, b), Save(2)], Publishing(0, "one");
    var steps := LostRun(a, b);
    LostPrefix(a, b);
    RunOn(EMPTY, first, second, 5);
    var v := Run(EMPTY, first, 3);
    PublishingShows(v, 0, "one", b);
    RunOn(EMPTY, first + second, [Save(1)], 0);
    RunOn(EMPTY, first + second, [Save(1)], 1);
    LostTail(v.(rows := Shown(b)), a, b);
    RunIgnoresRest(EMPTY, first + second + [Save(1)], Publishing(0, "two"), 8);
    RunOn(EMPTY, first + second + [Save(1)], Publishing(0, "two"), 0);
    RunOn(EMPTY, first + second + [Save(1)], Publishing(0, "two"), 4);
    assert RacesAt(EMPTY, steps, 8);
  }

  lemma LostPrefix(a: Snapshot, b: Snapshot)
    requires K.WellFormed(a) && K.WellFormed(b)
    ensures Run(EMPTY, [Compare(1, a), Compare(2, b), Save(2)], 3)
            == World(Saving(Rows(None, None), b), map[], map[1 := Upload(a, None)])
  {
    var steps := [Compare(1, a), Compare(2, b), Save(2)];
    assert Run(EMPTY, steps, 0) == EMPTY;
    assert Run(EMPTY, steps, 1) == EMPTY.(uploads := map[1 := Upload(a, None)]);
    assert Run(EMPTY, steps, 2) == EMPTY.(uploads := map[1 := Upload(a, None), 2 := Upload(b, None)]);
    assert map[1 := Upload(a, None), 2 := Upload(b, None)] - {2} == map[1 := Upload(a, None)];
  }

  lemma LostTail(v: World, a: Snapshot, b: Snapshot)
    requires v == World(Shown(b), map[], map[1 := Upload(a, None)]) && a.id != "" && b.id != ""
    ensures Races(v, Save(1))
    ensures var x := Run(v, [Save(1)], 1);
            && WallTotal(x.rows) == b.total && StoredTotal(x.rows) == a.total
            && WallTotal(Run(x, Publishing(0, "two"), 4).rows) == a.total
  {
    assert Run(v, [Save(1)], 0) == v;
    var x := Run(v, [Save(1)], 1);
    assert x == Next(v, Save(1));
    PublishingShows(x, 0, "two", a);
  }

  // ---------- the gap between reading the row and acquiring the lease ----------

  function LateJob(): seq<Step> {
    [Acquire(1, "one", 0, 0), Present(1, "cobalt"), Stamp(1, 0)]
  }

  /** Process 1 reads its row, process 2 publishes a later upload, process 1 acquires. */
  function OvertakenRun(a: Snapshot, b: Snapshot): seq<Step> {
    Uploading(1, a) + [Read(1)] + Uploading(2, b) + Publishing(2, "two") + LateJob()
  }

  /** Two processes can move the wall back without any race of uploads: fencing does not
      cover the row read before the lease. */
  lemma OvertakenJobDrops(a: Snapshot, b: Snapshot)
    requires K.WellFormed(a) && K.WellFormed(b) && a.total.Some? && b.total.Some? && a.total.value < b.total.value
    requires K.ShouldReplace(a, b)
    ensures var steps := OvertakenRun(a, b);
            && FreshTokens(steps) && OneByOne(EMPTY, steps)
            && WallTotal(Run(EMPTY, steps, 12).rows) == b.total
            && WallTotal(Run(EMPTY, steps, 13).rows) == a.total
  {
    OvertakenTokens(a, b);
    ReadOnceIs(a);
    OvertakenOneByOne(a, b);
    OtherPublishes(a, b);
    var before := Uploading(1, a) + [Read(1)] + Uploading(2, b) + Publishing(2, "two");
    LateJobDrops(World(Shown(b), map[1 := Reading(a)], map[]), a, b);
    RunOn(EMPTY, before, LateJob(), 2);
    RunOn(EMPTY, before, LateJob(), 3);
  }

  /** Process 2 stores and publishes the later upload. */
  lemma OtherPublishes(a: Snapshot, b: Snapshot)
    requires Run(EMPTY, Uploading(1, a) + [Read(1)], 3) == ReadOnce(a)
    requires K.WellFormed(b) && a.total.Some? && b.total.Some? && a.total.value < b.total.value && K.ShouldReplace(a, b)
    ensures Run(EMPTY, Uploading(1, a) + [Read(1)] + Uploading(2, b) + Publishing(2, "two"), 10)
            == World(Shown(b), map[1 := Reading(a)], map[])
  {
    var first, v := Uploading(1, a) + [Read(1)], ReadOnce(a);
    RunOn(EMPTY, first, Uploading(2, b), 2);
    UploadingSaves(v, 2, b);
    var x := v.(rows := Saving(v.rows, b));
    RunOn(EMPTY, first + Uploading(2, b), Publishing(2, "two"), 5);
    PublishingShows(x, 2, "two", b);
  }

  lemma OvertakenTokens(a: Snapshot, b: Snapshot)
    ensures FreshTokens(OvertakenRun(a, b))
  {
    var steps := OvertakenRun(a, b);
    forall i, j | 0 <= i < j < |steps| && steps[i].Acquire? && steps[j].Acquire?
      ensures steps[i].token != steps[j].token
    {
      assert i == 6 && j == 10;
    }
  }

  /** Process 1 has read the row of a. */
  function ReadOnce(a: Snapshot): World {
    World(Saving(Rows(None, None), a), map[1 := Reading(a)], map[])
  }

  lemma ReadOnceIs(a: Snapshot)
    requires K.WellFormed(a)
    ensures Run(EMPTY, Uploading(1, a) + [Read(1)], 3) == ReadOnce(a)
  {
    UploadingSaves(EMPTY, 1, a);
    RunOn(EMPTY, Uploading(1, a), [Read(1)], 1);
    var v := EMPTY.(rows := Saving(EMPTY.rows, a));
    assert Run(v, [Read(1)], 0) == v && Run(v, [Read(1)], 1) == Next(v, Read(1));
    assert EMPTY.jobs[1 := Reading(a)] == map[1 := Reading(a)];
  }

  lemma OvertakenOneByOne(a: Snapshot, b: Snapshot)
    requires Run(EMPTY, Uploading(1, a) + [Read(1)], 3) == ReadOnce(a)
    ensures OneByOne(EMPTY, OvertakenRun(a, b))
  {
    var steps := OvertakenRun(a, b);
    var first := Uploading(1, a) + [Read(1)];
    var rest := Uploading(2, b) + Publishing(2, "two") + LateJob();
    assert steps == first + rest;
    RunIgnoresRest(EMPTY, first, rest, 3);
    forall k | 0 <= k < |steps|
      ensures !steps[k].Blind? && (steps[k].Compare? ==> Run(EMPTY, steps, k).uploads == map[])
    {
      assert steps[k].Compare? ==> k == 0 || k == 3;
    }
  }

  lemma LateJobDrops(w: World, a: Snapshot, b: Snapshot)
    requires w == World(Shown(b), map[1 := Reading(a)], map[]) && a.id != "" && b.id != ""
    ensures WallTotal(Run(w, LateJob(), 2).rows) == b.total && WallTotal(Run(w, LateJob(), 3).rows) == a.total
  {
    assert Run(w, LateJob(), 0) == w;
    var x := Next(w, Acquire(1, "one", 0, 0));
    var y := Next(x, Present(1, "cobalt"));
    assert Run(w, LateJob(), 1) == x && Run(w, LateJob(), 2) == y;
    assert Holds(y, 1) && y.jobs[1] == Holding(a, "one", 0);
    StampingShows(y.rows, a, "one", 0, 0);
  }
}
