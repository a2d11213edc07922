/** Model of the handlers in internal/hosted/public_profile_http.go and of publishPalette
    in publish_job.go, for one server process and one owner. Every handler is proved to
    take only steps of the publication protocol. */
module WallServer {
  import opened Clock
  import opened PublishPolicy
  import opened Snapshots
  import opened WallAttempt
  import opened WallProtocol
  import opened WallStore
  import opened Wrappers
  import K = ProjectionKeep

  datatype Readme = Materialized | Waiting | Deferred | Withheld | Coalesced

  /** The answer to an upload. */
  datatype PutAnswer = Invalid | KeptCoverage | KeptRegression | Accepted(readme: Readme)

  const START := EMPTY

  /** pendingIntent. */
  function PendingOf(r: Rows): Pending {
    match r.projection
    case None => Pending("", NoWhy, false)
    case Some(row) => Pending(row.desired, row.reason, row.status in {Failed, BlockedAuth})
  }

  function RetriesOf(r: Rows): int {
    if r.projection.None? then 0 else r.projection.value.retries
  }

  /** publishBackoff: the first miss retries at once, later ones wait an hour. */
  function Backoff(retries: int): int {
    if retries <= 1 then 0 else HOUR
  }

  /** notePublishFailure: the status to store, and when to try again. */
  function RetryPlan(f: Failure, retries: int, now: int): (ReadmeStatus, Option<int>) {
    match f
    case Auth => (BlockedAuth, Some(now + 6 * HOUR))
    case Busy => (InFlight, Some(now + 30 * SECOND))
    case RateLimit(wait) => (Failed, Some(now + if wait <= 0 then 30 * SECOND else wait))
    case Transient => (Failed, if Backoff(retries) > 0 then Some(now + Backoff(retries)) else None)
    case Write => (Failed, if Backoff(retries) > 0 then Some(now + Backoff(retries)) else None)
    case Conflict => (Failed, None)
    case Unverified => (Failed, None)
  }

  function Noted(r: Rows, id: string, kind: Why, f: Failure, now: int): Rows {
    var retries := RetriesOf(r) + 1;
    var (status, due) := RetryPlan(f, retries, now);
    Intending(r, id, status, kind, due, retries)
  }

  function LongestWait(f: Failure): int {
    match f
    case Auth => 6 * HOUR
    case RateLimit(wait) => if wait <= 0 then 30 * SECOND else wait
    case _ => HOUR
  }

  /** What the gate's answer stores, when it is not to publish. */
  function Answered(r: Rows, snap: Snapshot, d: Decision): Rows {
    match d
    case NoChange(_) =>
      if snap.id != "" && VerifiedWall(r).Some? && snap.id == VerifiedWall(r).value.id then Applying(r, snap.id) else r
    case Blocked(why) => if why == UnknownVerified then r else Intending(r, snap.id, BlockedData, why, None, 0)
    case WaitUntil(due) => Intending(r, snap.id, InFlight, Cooldown, Some(due), 0)
    case RetryPending =>
      if r.projection.None? then r
      else
        var row := r.projection.value;
        Intending(r, snap.id, Failed, if row.reason.ThemeOf? then row.reason else Retry, row.due, row.retries)
    case PublishNow(_) => r
  }

  /** The wall does not show id, and nobody holds the lease at t. */
  predicate Outstanding(r: Rows, id: string, t: int) {
    && r.projection.Some? && id != "" && (r.presentation.Some? ==> r.presentation.value.readmeId != id)
    && (r.projection.value.leaseUntil.None? || r.projection.value.leaseUntil.value < t)
  }

  /** Nor is one that is held for midnight or coalesced onto an earlier failure: it is due
      from that midnight on, or when the earlier attempt was. */
  lemma AnswerStaysDue(r: Rows, snap: Snapshot, d: Decision, t: int)
    requires Outstanding(r, snap.id, t)
    ensures d.WaitUntil? ==> (Due(Answered(r, snap, d), t) <==> d.due <= t)
    ensures d.RetryPending? ==>
            (Due(Answered(r, snap, d), t) <==> r.projection.value.due.None? || r.projection.value.due.value <= t)
  {
  }

  /** A failed publication is never dropped: however often it failed, once its wait is over
      and no lease is held it is due, as long as the wall does not show its snapshot. */
  lemma FailureStaysDue(r: Rows, id: string, kind: Why, f: Failure, now: int, t: int)
    requires Outstanding(r, id, t) && t >= now + LongestWait(f)
    ensures Due(Noted(r, id, kind, f, now), t)
  {
    var row := Noted(r, id, kind, f, now).projection.value;
    assert row.status in {Failed, InFlight, BlockedAuth} && (row.due.Some? ==> row.due.value <= t);
  }

  /** Nor is it tried early: exactly from then on. A missing authorization waits six hours, a busy
      publisher thirty seconds, a rate limit what it asks for or thirty seconds; what may pass is
      tried again at once and from the second miss on after an hour; the rest is due at once. */
  lemma FailureIsDueFrom(r: Rows, id: string, kind: Why, f: Failure, now: int, t: int)
    requires Outstanding(r, id, t)
    ensures Due(Noted(r, id, kind, f, now), t) <==>
              match f
              case Auth => t >= now + 6 * 3600 * SECOND
              case Busy => t >= now + 30 * SECOND
              case RateLimit(wait) => t >= now + if wait <= 0 then 30 * SECOND else wait
              case Transient => r.projection.value.retries >= 1 ==> t >= now + 3600 * SECOND
              case Write => r.projection.value.retries >= 1 ==> t >= now + 3600 * SECOND
              case _ => true
    ensures Noted(r, id, kind, f, now).projection.value.retries == r.projection.value.retries + 1
  {
  }

  // ---------- the recorded steps ----------

  lemma RunOneMore(w: World, steps: seq<Step>, s: Step)
    ensures Run(w, steps + [s], |steps| + 1) == Next(Run(w, steps, |steps|), s)
    ensures Unraced(w, steps) && !Races(Run(w, steps, |steps|), s) ==> Unraced(w, steps + [s])
  {
    RunIgnoresRest(w, steps, [s], |steps|);
    if Unraced(w, steps) && !Races(Run(w, steps, |steps|), s) {
      forall k | 0 <= k < |steps + [s]| ensures !RacesAt(w, steps + [s], k) {
        RunIgnoresRest(w, steps, [s], k);
        assert k < |steps| ==> !RacesAt(w, steps, k);
      }
    }
  }

  /** What the protocol theorem says of the rows before and after some more steps. */
  lemma StepsKeepWall(before: seq<Step>, after: seq<Step>)
    requires before <= after && OneProcess(after, 0) && Unraced(START, after)
    ensures var x, y := Run(START, before, |before|).rows, Run(START, after, |after|).rows;
            && K.TotalLeq(WallTotal(x), WallTotal(y)) && K.TotalLeq(WallTotal(y), StoredTotal(y))
            && K.TotalLeq(StoredTotal(x), StoredTotal(y))
  {
    RunIgnoresRest(START, before, after[|before|..], |before|);
    assert before + after[|before|..] == after;
    OneProcessWall(START, after, |before|, |after|, 0);
    StoredOnlyGrows(START, after, |before|, |after|);
  }

  /** While it is the only process and no upload races, what is stored is never below the
      wall, so considering it is never blocked as a regression. */
  lemma StoredIsNeverNegative(steps: seq<Step>, now: Option<int>, pending: Pending, theme: bool, fromWorker: bool,
                              c: Correction)
    requires OneProcess(steps, 0) && Unraced(START, steps) && Run(START, steps, |steps|).rows.projection.Some?
    ensures var r := Run(START, steps, |steps|).rows;
            var snap := r.projection.value.snap;
            Decide(Input(snap, Some(snap), VerifiedWall(r), pending, now, theme, false, fromWorker,
                         c)) != Blocked(Negative)
  {
    StepsKeepWall(steps, steps);
  }

  /** If this snapshot is still the wanted one, nothing is pending any more. */
  predicate Settled(r: Rows, id: string) {
    && r.projection.Some?
    && var row := r.projection.value; row.desired == id ==>
       row.status == Applied && row.reason == NoWhy && row.due == None && row.retries == 0
  }

  /** A verified snapshot that was filed as failed, because its job row could not be
      written, is not due again, unless a theme was asked for. */
  lemma VerifiedIsNotDue(r: Rows, id: string, kind: Why, f: Failure, now: int, t: int)
    requires r.projection.Some? && VerifiedAs(r, id) && !kind.ThemeOf?
    ensures !Due(Noted(r, id, kind, f, now), t)
  {
  }

  /** The gate, asked about the stored snapshot. */
  function GateFor(r: Rows, snap: Snapshot, now: int, theme: bool, fromWorker: bool, c: Correction): Decision {
    Decide(Input(snap, Some(snap), VerifiedWall(r), PendingOf(r), Some(now), theme, false, fromWorker, c))
  }

  /** The answer word of a decision whose publication went as reported. */
  function WordFor(d: Decision, done: bool): Readme {
    match d
    case NoChange(_) => Coalesced
    case Blocked(_) => Withheld
    case WaitUntil(_) => Waiting
    case RetryPending => Coalesced
    case PublishNow(_) => if done then Materialized else Deferred
  }

  /** The failed attempt is on record, with its wait. */
  predicate Filed(r: Rows, id: string, kind: Why, f: Failure, now: int) {
    r.projection.Some? ==>
      var row := r.projection.value;
      row.desired == id && row.reason == kind && (row.status, row.due) == RetryPlan(f, row.retries, now)
  }

  /** A publication is done when the server is configured, the wall is reached and the job
      row is written. */
  predicate Done(r: Rows, palette: string, a: Attempt) {
    a.configured && Reaches(r, palette, a) && a.recorded
  }

  function WallWhen(publishes: bool, r: Rows, palette: string, a: Attempt): Option<Wall> {
    if publishes then WallAfter(r, palette, a) else VerifiedWall(r)
  }

  /** What the intent of a publication is filed under. */
  function KindOf(r: Rows, snap: Snapshot, theme: bool, c: Correction): Why {
    var wall := VerifiedWall(r);
    if theme then Theme
    else if wall.Some? && wall.value.total.Some? && snap.total.Some?
      && Explains(c, wall.value.total.value, snap.total.value)
    then CorrectedBy(c.delta)
    else Usage
  }

  /** The upload is stored and waits for the owner's midnight. */
  predicate HeldForRollover(r: Rows, snap: Snapshot) {
    && r.projection.Some? && r.projection.value.snap == snap && r.projection.value.desired == snap.id
    && r.projection.value.status == InFlight && r.projection.value.reason == Cooldown && r.projection.value.due.Some?
  }

  /** A measured snapshot that the wall does not show yet, and that is neither lower than it nor
      of an earlier local day; an unknown total on the wall is replaced on its own day only. */
  predicate MayShow(r: Rows, snap: Snapshot) {
    && snap.id != "" && snap.total.Some? && snap.status != Unavailable
    && (VerifiedWall(r).Some? ==>
          var wall := VerifiedWall(r).value;
          && wall.id != snap.id && (wall.total.Some? ==> wall.total.value <= snap.total.value)
          && (wall.asOf.Some? && snap.asOf.Some? ==>
                wall.asOf.value <= snap.asOf.value && (wall.total.Some? || wall.asOf == snap.asOf)))
  }

  /** The stored intent has failed. */
  predicate FailedIntent(r: Rows) {
    r.projection.Some? && r.projection.value.status in {Failed, BlockedAuth}
  }

  /** It is not a theme's, and its snapshot may be shown. */
  predicate Owed(r: Rows) {
    && FailedIntent(r) && r.projection.value.desired != "" && MayShow(r, r.projection.value.snap)
    && !(r.projection.value.status == Failed && r.projection.value.reason.ThemeOf?)
  }

  /** An upload of the wall's own day while an earlier intent has failed. */
  predicate JoinsFailure(r: Rows, snap: Snapshot) {
    && FailedIntent(r) && Passes(r, snap) && MayShow(r, snap)
    && (VerifiedWall(r).Some? && VerifiedWall(r).value.asOf.Some? && snap.asOf.Some? ==>
          VerifiedWall(r).value.asOf == snap.asOf)
  }

  /** The worker publishes what is owed. */
  lemma WorkerPays(r: Rows, now: int)
    requires Owed(r)
    ensures GateFor(r, r.projection.value.snap, now, false, true, NO_CORRECTION).PublishNow?
  {
  }

  /** A client's upload is only added to it. */
  lemma UploadJoins(r: Rows, snap: Snapshot, now: int)
    requires JoinsFailure(r, snap)
    ensures GateFor(Saving(r, snap), snap, now, false, false, NO_CORRECTION) == RetryPending
    ensures VerifiedWall(Saving(r, snap)) == VerifiedWall(r)
  {
  }

  /** An upload of the wall's own day, no lower than the wall, while nothing has failed. */
  predicate GrowsWall(r: Rows, snap: Snapshot) {
    && !FailedIntent(r) && Passes(r, snap) && MayShow(r, snap) && VerifiedWall(r).Some?
    && var wall := VerifiedWall(r).value;
       wall.id != "" && wall.total.Some? && wall.asOf.Some? && wall.asOf == snap.asOf
  }

  predicate GrowsEnough(r: Rows, snap: Snapshot)
    requires GrowsWall(r, snap)
  {
    snap.total.value - VerifiedWall(r).value.total.value
    >= if snap.total.value >= 1_000_000_000 then 10_000_000 else 10_000
  }

  /** The owner's clock, as the snapshot tells its offset. */
  function ClockOf(snap: Snapshot, now: int): int {
    if snap.offset.Some? && -840 <= snap.offset.value <= 840 then now + snap.offset.value * MINUTE else now
  }

  /** The owner's midnight is at most four hours away, on the snapshot's day. */
  predicate Late(snap: Snapshot, now: int) {
    snap.asOf == Some(ClockOf(snap, now) / DAY) && DAY - ClockOf(snap, now) % DAY <= 4 * HOUR
  }

  /** Growth that is held already, of a day that is over. */
  predicate HeldOver(r: Rows, snap: Snapshot, now: int) {
    && r.projection.Some? && r.projection.value.reason == Cooldown
    && snap.asOf.Some? && snap.asOf.value < ClockOf(snap, now) / DAY
  }

  lemma UploadOfTheDay(r: Rows, snap: Snapshot, now: int)
    requires GrowsWall(r, snap)
    ensures var d := GateFor(Saving(r, snap), snap, now, false, false, NO_CORRECTION);
            && VerifiedWall(Saving(r, snap)) == VerifiedWall(r)
            && (HeldOver(r, snap, now) || !GrowsEnough(r, snap) ==> d.NoChange?)
            && (!HeldOver(r, snap, now) && GrowsEnough(r, snap) ==>
                  d == if Late(snap, now) then WaitUntil(now + DAY - ClockOf(snap, now) % DAY) else PublishNow(Usage))
  {
    var rows := Saving(r, snap);
    assert VerifiedWall(rows) == VerifiedWall(r);
    GrowthDecides(Input(snap, Some(snap), VerifiedWall(rows), PendingOf(rows), Some(now), false, false, false,
                        NO_CORRECTION));
  }

  /** The answer, the wall and the rows follow gate and job. */
  ghost predicate PutFollowed(r: Rows, after: Rows, snap: Snapshot, palette: string, now: int, a: Attempt,
                              answer: PutAnswer)
  {
    var rows := Saving(r, snap);
    var d := GateFor(rows, snap, now, false, false, NO_CORRECTION);
    && answer == Accepted(WordFor(d, Done(rows, palette, a)))
    && VerifiedWall(after) == WallWhen(d.PublishNow? && a.configured, rows, palette, a)
    && (!d.PublishNow? ==> after == Answered(rows, snap, d))
  }

  /** What an upload of the wall's own day comes to. While an intent has failed it is only added to
      it. Otherwise too little growth, or growth of a day that is over, leaves the wall; growth in the
      owner's last four hours is kept for that midnight; and other growth is shown, when the attempt
      goes through undisturbed. */
  predicate DaysOutcome(r: Rows, after: Rows, snap: Snapshot, palette: string, now: int, a: Attempt,
                        answer: PutAnswer)
  {
    && (JoinsFailure(r, snap) ==> answer == Accepted(Coalesced) && VerifiedWall(after) == VerifiedWall(r))
    && (GrowsWall(r, snap) ==>
          if HeldOver(r, snap, now) || !GrowsEnough(r, snap) then
            answer == Accepted(Coalesced) && VerifiedWall(after) == VerifiedWall(r)
          else if Late(snap, now) then
            && answer == Accepted(Waiting) && VerifiedWall(after) == VerifiedWall(r) && after.projection.Some?
            && after.projection.value.due == Some(now + DAY - ClockOf(snap, now) % DAY)
          else Done(Saving(r, snap), palette, a) && Undisturbed(a) ==>
                 answer == Accepted(Materialized) && VerifiedWall(after) == ShownWall(snap))
  }

  lemma FollowedIsOutcome(r: Rows, after: Rows, snap: Snapshot, palette: string, now: int, a: Attempt,
                          answer: PutAnswer)
    requires Passes(r, snap) ==> PutFollowed(r, after, snap, palette, now, a, answer)
    ensures DaysOutcome(r, after, snap, palette, now, a, answer)
  {
    if JoinsFailure(r, snap) {
      UploadJoins(r, snap, now);
    }
    if GrowsWall(r, snap) {
      UploadOfTheDay(r, snap, now);
    }
    hide GateFor;
    hide Late;
    hide HeldOver;
    hide MayShow;
    hide K.ShouldReplace;
  }

  /** What each answer leaves in the intent columns. */
  lemma AnswerLeaves(r: Rows, snap: Snapshot, d: Decision)
    requires r.projection.Some? && !d.PublishNow?
    ensures var was, now := r.projection.value, Answered(r, snap, d).projection.value;
            && Answered(r, snap, d).projection.Some? && Answered(r, snap, d).presentation == r.presentation
            && now.snap == was.snap && now.leaseToken == was.leaseToken && now.leaseUntil == was.leaseUntil
            && match d
               case WaitUntil(due) =>
                 now.desired == snap.id && now.status == InFlight && now.reason == Cooldown && now.due == Some(due)
                 && now.retries == 0
               case RetryPending =>
                 now.desired == snap.id && now.status == Failed && now.due == was.due && now.retries == was.retries
                 && now.reason == if was.reason.ThemeOf? then was.reason else Retry
               case Blocked(why) =>
                 if why == UnknownVerified then now == was
                 else now.desired == snap.id && now.status == BlockedData && now.reason == why && now.due.None?
                      && now.retries == 0
               case NoChange(_) =>
                 if snap.id != "" && VerifiedWall(r).Some? && VerifiedWall(r).value.id == snap.id
                    && was.desired == snap.id
                 then now.desired == was.desired && now.status == Applied && now.reason == NoWhy && now.due.None?
                      && now.retries == 0
                 else now == was
  {
  }

  /** What a publication is filed under, and what counts as a failed intent. */
  lemma IntentNames(r: Rows, snap: Snapshot, theme: bool, c: Correction)
    ensures theme ==> KindOf(r, snap, theme, c) == Theme
    ensures !theme ==>
              var wall := VerifiedWall(r);
              var drop := if wall.Some? then wall.value.total.GetOr(0) - snap.total.GetOr(0) else 0;
              KindOf(r, snap, theme, c)
              == if wall.Some? && wall.value.total.Some? && snap.total.Some? && drop > 0 && c.reason && c.delta == drop
                 then CorrectedBy(drop) else Usage
    ensures PendingOf(r).failed <==>
              r.projection.Some? && (r.projection.value.status == Failed || r.projection.value.status == BlockedAuth)
    ensures r.projection.Some? ==>
              PendingOf(r).id == r.projection.value.desired && PendingOf(r).reason == r.projection.value.reason
    ensures r.projection.None? ==> PendingOf(r).id == ""
  {
  }

  class Server {
    const store: Store
    ghost var steps: seq<Step>

    /** The rows are those of a run of the protocol by this process alone. */
    ghost predicate At(jobs: map<int, Job>)
      reads this, store
    {
      OneProcess(steps, 0) && Unraced(START, steps)
      && Run(START, steps, |steps|) == World(store.View(), jobs, map[])
    }

    /** More steps were taken, neither the wall nor the projection lost of its total, and
        the wall stayed behind the projection. */
    ghost predicate Advanced(before: seq<Step>, rows: Rows)
      reads this, store
    {
      && At(map[]) && before <= steps
      && K.TotalLeq(WallTotal(rows), WallTotal(store.View()))
      && K.TotalLeq(WallTotal(store.View()), StoredTotal(store.View()))
      && K.TotalLeq(StoredTotal(rows), StoredTotal(store.View()))
    }

    constructor ()
      ensures At(map[]) && fresh(store) && store.View() == Rows(None, None)
    {
      store := new Store();
      steps := [];
    }

    /** Records the step just taken. */
    ghost method Record(s: Step, before: World)
      requires ByProcess(s, 0) && OneProcess(steps, 0) && Unraced(START, steps) && !Races(before, s)
      requires Run(START, steps, |steps|) == before
      modifies this`steps
      ensures steps == old(steps) + [s] && OneProcess(steps, 0) && Unraced(START, steps)
      ensures Run(START, steps, |steps|) == Next(before, s)
    {
      RunOneMore(START, steps, s);
      steps := steps + [s];
    }

    /** One upload, its comparison and its save with no other upload in between. */
    method ReadCompareSave(snap: Snapshot, ghost jobs: map<int, Job>) returns (answer: PutAnswer)
      requires At(jobs)
      modifies this`steps, store
      ensures At(jobs) && old(steps) <= steps
      ensures store.View() == Putting(old(store.View()), snap)
      ensures answer.Accepted? <==> Passes(old(store.View()), snap)
      ensures answer.Invalid? <==> !K.WellFormed(snap)
      ensures answer.KeptCoverage? <==>
              K.WellFormed(snap) && old(store.projection).Some?
              && !K.ShouldReplace(old(store.projection).value.snap, snap)
      ensures answer.KeptRegression? <==>
              K.WellFormed(snap) && old(store.projection).Some?
              && K.ShouldReplace(old(store.projection).value.snap, snap)
              && K.TokenRegressed(old(store.projection).value.snap, snap)
      ensures answer.Accepted? ==> store.projection.Some? && store.projection.value.snap == snap
      ensures !answer.Accepted? ==> store.View() == old(store.View())
    {
      ghost var w := World(store.View(), jobs, map[]);
      Record(Compare(0, snap), w);
      if !K.WellFormed(snap) {
        return Invalid;
      }
      if store.projection.Some? {
        var prev := store.projection.value.snap;
        var replace := K.ShouldReplaceProjection(prev, snap);
        if !replace {
          return KeptCoverage;
        }
        if K.TokenRegressed(prev, snap) {
          return KeptRegression;
        }
      }
      Record(Save(0), w.(uploads := map[0 := Upload(snap, StoredSnap(store.View()))]));
      store.SaveProjection(snap);
      assert map[0 := Upload(snap, StoredSnap(w.rows))] - {0} == map[];
      return Accepted(Coalesced);
    }

    /** Uploads of other requests that land while a job runs. */
    method LandUploads(uploads: seq<Snapshot>, ghost jobs: map<int, Job>)
      requires At(jobs)
      modifies this`steps, store
      ensures At(jobs) && old(steps) <= steps
      ensures store.presentation == old(store.presentation) && (uploads == [] ==> store.View() == old(store.View()))
      ensures StoredSnap(store.View()) == K.PutAll(StoredSnap(old(store.View())), uploads)
      ensures LeaseOf(store.View()) == LeaseOf(old(store.View()))
      ensures old(store.projection).Some? ==> store.projection.Some?
    {
      for i := 0 to |uploads|
        invariant At(jobs) && old(steps) <= steps
        invariant store.presentation == old(store.presentation) && (i == 0 ==> store.View() == old(store.View()))
        invariant StoredSnap(store.View()) == K.PutAll(StoredSnap(old(store.View())), uploads[..i])
        invariant LeaseOf(store.View()) == LeaseOf(old(store.View()))
        invariant old(store.projection).Some? ==> store.projection.Some?
      {
        PuttingKeepsLease(store.View(), uploads[i]);
        assert uploads[..i + 1][..i] == uploads[..i];
        var _ := ReadCompareSave(uploads[i], jobs);
      }
      assert uploads[..|uploads|] == uploads;
    }

    method Intend(id: string, status: ReadmeStatus, kind: Why, due: Option<int>, retries: int)
      requires At(map[])
      modifies this`steps, store
      ensures At(map[]) && steps == old(steps) + [Step.Intend(id, status, kind, due, retries)]
              && store.View() == Intending(old(store.View()), id, status, kind, due, retries)
    {
      Record(Step.Intend(id, status, kind, due, retries), World(store.View(), map[], map[]));
      store.SetPublicationIntent(id, status, kind, due, retries);
    }

    method Apply(id: string, ghost jobs: map<int, Job>)
      requires At(jobs)
      modifies this`steps, store
      ensures At(jobs) && old(steps) <= steps && store.View() == Applying(old(store.View()), id)
    {
      Record(Step.Apply(id), World(store.View(), jobs, map[]));
      store.SetReadmeApplied(id);
    }

    /** The deferred release at the end of a job that held the lease. */
    method Finish(token: string, ghost j: Job)
      requires At(map[0 := j]) && !j.Reading? && j.token == token
      modifies this`steps, store
      ensures At(map[]) && old(steps) <= steps && store.View() == Releasing(old(store.View()), token)
    {
      Record(Step.Finish(0), World(store.View(), map[0 := j], map[]));
      store.ReleasePublishLease(token);
      assert map[0 := j] - {0} == map[];
    }

    /** Reads the row, then asks for the lease; other uploads may land in between. */
    method Begin(a: Attempt) returns (snap: Option<Snapshot>)
      requires At(map[])
      modifies this`steps, store
      ensures old(steps) <= steps && store.presentation == old(store.presentation)
      ensures snap.None? ==> At(map[])
      ensures snap == if LeaseOpen(old(store.View()), a.token, a.acquireAt) then StoredSnap(old(store.View())) else None
      ensures snap.Some? ==> At(map[0 := Holding(snap.value, a.token, a.start)]) && Leased(store.View(), a.token)
      ensures a.between == [] ==> StoredSnap(store.View()) == StoredSnap(old(store.View()))
      ensures snap.None? && Leased(store.View(), a.token) ==> Leased(old(store.View()), a.token)
    {
      if store.projection.None? {
        return None;
      }
      var row := store.projection.value.snap;
      Record(Read(0), World(store.View(), map[], map[]));
      LandUploads(a.between, map[0 := Reading(row)]);
      Record(Acquire(0, a.token, a.start, a.acquireAt), World(store.View(), map[0 := Reading(row)], map[]));
      var held := store.AcquirePublishLease(a.token, a.start + LEASE, a.acquireAt);
      assert map[0 := Reading(row)] - {0} == map[];
      assert map[0 := Reading(row)][0 := Holding(row, a.token, a.start)] == map[0 := Holding(row, a.token, a.start)];
      return if held then Some(row) else None;
    }

    method ShowPalette(palette: string, ghost j: Job)
      requires At(map[0 := j]) && j.Holding?
      modifies this`steps, store
      ensures At(map[0 := j]) && old(steps) <= steps && store.View() == Presenting(old(store.View()), palette)
    {
      Record(Present(0, palette), World(store.View(), map[0 := j], map[]));
      store.SavePresentation(palette);
    }

    /** stampVerified. */
    method StampVerified(snap: Snapshot, a: Attempt) returns (ok: bool)
      requires At(map[0 := Holding(snap, a.token, a.start)])
      modifies this`steps, store
      ensures At(map[0 := Stamped(snap, a.token)]) && old(steps) <= steps
      ensures ok == VerifiedAs(store.View(), snap.id) && (!ok ==> store.View() == old(store.View()))
      ensures store.View() == Stamping(old(store.View()), snap, a.token, a.start, a.stampAt)
      ensures store.projection == old(store.projection)
    {
      ghost var j := Holding(snap, a.token, a.start);
      Record(Stamp(0, a.stampAt), World(store.View(), map[0 := j], map[]));
      ok := store.MarkReadmeVerified(snap, a.token, a.start, a.stampAt);
      assert map[0 := j][0 := Stamped(snap, a.token)] == map[0 := Stamped(snap, a.token)];
    }

    /** The end of a job whose README and previews were read back. */
    method Verify(snap: Snapshot, palette: string, a: Attempt) returns (ok: bool)
      requires At(map[0 := Holding(snap, a.token, a.start)]) && Leased(store.View(), a.token)
      modifies this`steps, store
      ensures At(map[]) && old(steps) <= steps
      ensures ok ==> VerifiedAs(store.View(), snap.id) && (store.projection.Some? ==> Settled(store.View(), snap.id))
      ensures ok <==> CanShow(old(store.View()), snap.id, a.start)
      ensures ok ==> VerifiedWall(store.View()) == ShownWall(snap)
      ensures !ok ==> VerifiedWall(store.View()) == VerifiedWall(old(store.View()))
      ensures StoredSnap(store.View()) == StoredSnap(old(store.View())) && !Leased(store.View(), a.token)
    {
      ShowPalette(palette, Holding(snap, a.token, a.start));
      ok := StampVerified(snap, a);
      if ok {
        Apply(snap.id, map[0 := Stamped(snap, a.token)]);
      }
      Finish(a.token, Stamped(snap, a.token));
    }

    /** The part of the job that holds the lease. */
    method Publish(snap: Snapshot, palette: string, a: Attempt) returns (failure: Option<Failure>)
      requires At(map[0 := Holding(snap, a.token, a.start)]) && Leased(store.View(), a.token)
      modifies this`steps, store
      ensures At(map[]) && old(steps) <= steps && !Leased(store.View(), a.token)
      ensures var through := a.remote.None? && a.presented && CanShow(old(store.View()), snap.id, a.start);
              && failure == (if through && a.recorded then None else if a.remote.Some? then a.remote else Some(Write))
              && VerifiedWall(store.View()) == (if through then ShownWall(snap) else VerifiedWall(old(store.View())))
              && (through ==> VerifiedAs(store.View(), snap.id) && Settled(store.View(), snap.id))
      ensures a.during == [] ==> StoredSnap(store.View()) == StoredSnap(old(store.View()))
    {
      LandUploads(a.during, map[0 := Holding(snap, a.token, a.start)]);
      if a.remote.Some? || !a.presented {
        Finish(a.token, Holding(snap, a.token, a.start));
        return if a.remote.Some? then a.remote else Some(Write);
      }
      var ok := Verify(snap, palette, a);
      return if ok && a.recorded then None else Some(Write);
    }

    /** publishPalette. The wall ends as the row that was read exactly when the attempt reaches
        it, and otherwise as it was; without an error it was reached, recorded, and its intent
        is settled. The lease is given back. */
    method PublishPalette(palette: string, a: Attempt) returns (failure: Option<Failure>)
      requires At(map[])
      modifies this`steps, store
      ensures Advanced(old(steps), old(store.View()))
      ensures failure.None? <==> Reaches(old(store.View()), palette, a) && a.recorded
      ensures failure == Reported(old(store.View()), palette, a)
      ensures VerifiedWall(store.View()) == WallAfter(old(store.View()), palette, a)
      ensures Reaches(old(store.View()), palette, a) ==>
                && VerifiedAs(store.View(), RowRead(old(store.View()), a).value.id)
                && Settled(store.View(), RowRead(old(store.View()), a).value.id)
      ensures Undisturbed(a) ==> StoredSnap(store.View()) == StoredSnap(old(store.View()))
      ensures Leased(store.View(), a.token) ==> Leased(old(store.View()), a.token)
    {
      ghost var before, r := steps, store.View();
      LandUploads(a.queued, map[]);
      if !KnownPalette(palette) || a.refused.Some? || store.projection.None? {
        StepsKeepWall(before, steps);
        return if KnownPalette(palette) && a.refused.Some? then a.refused else Some(Write);
      }
      var snap := Begin(a);
      if snap.None? {
        StepsKeepWall(before, steps);
        return Some(Busy);
      }
      failure := Publish(snap.value, palette, a);
      StepsKeepWall(before, steps);
    }

    /** notePublishFailure. */
    method NotePublishFailure(id: string, kind: Why, f: Failure, now: int)
      requires At(map[])
      modifies this`steps, store
      ensures Advanced(old(steps), old(store.View())) && store.View() == Noted(old(store.View()), id, kind, f, now)
    {
      ghost var before := steps;
      var retries := RetriesOf(store.View()) + 1;
      var status, due := PlanRetry(f, retries, now);
      Intend(id, status, kind, due, retries);
      StepsKeepWall(before, steps);
    }

    static method PlanRetry(f: Failure, retries: int, now: int) returns (status: ReadmeStatus, due: Option<int>)
      ensures (status, due) == RetryPlan(f, retries, now)
    {
      status, due := Failed, None;
      match f {
        case Auth =>
          status, due := BlockedAuth, Some(now + 6 * HOUR);
        case Busy =>
          status, due := InFlight, Some(now + 30 * SECOND);
        case RateLimit(wait) =>
          due := Some(now + if wait <= 0 then 30 * SECOND else wait);
        case _ =>
          if (f.Transient? || f.Write?) && Backoff(retries) > 0 {
            due := Some(now + Backoff(retries));
          }
      }
    }

    /** publishUsageNow: the intent is on record, and due, before the job begins. */
    method PublishUsageNow(snap: Snapshot, theme: bool, palette: string, now: int, c: Correction, a: Attempt)
      returns (readme: Readme)
      requires At(map[]) && store.projection.Some?
      modifies this`steps, store
      ensures Advanced(old(steps), old(store.View()))
      ensures old(steps) + [Step.Intend(snap.id, InFlight, KindOf(old(store.View()), snap, theme, c), Some(now),
                                        RetriesOf(old(store.View())))] <= steps
      ensures readme == if Done(old(store.View()), palette, a) then Materialized else Deferred
      ensures VerifiedWall(store.View()) == WallWhen(a.configured, old(store.View()), palette, a)
      ensures a.configured && !Done(old(store.View()), palette, a) ==>
                Filed(store.View(), snap.id, KindOf(old(store.View()), snap, theme, c),
                      Reported(old(store.View()), palette, a).value, now)
      ensures Undisturbed(a) ==> StoredSnap(store.View()) == StoredSnap(old(store.View()))
      ensures !a.configured ==>
                store.View() == Intending(old(store.View()), snap.id, Failed,
                                          KindOf(old(store.View()), snap, theme, c), None, RetriesOf(old(store.View())))
    {
      ghost var before := steps;
      var kind := KindOf(store.View(), snap, theme, c);
      var retries := RetriesOf(store.View());
      SameAttempt(store.View(), Intending(store.View(), snap.id, InFlight, kind, Some(now), retries), palette, a);
      Intend(snap.id, InFlight, kind, Some(now), retries);
      if !a.configured {
        Intend(snap.id, Failed, kind, None, retries);
        StepsKeepWall(before, steps);
        return Deferred;
      }
      var failure := PublishPalette(palette, a);
      if failure.Some? {
        NotePublishFailure(snap.id, kind, failure.value, now);
        StepsKeepWall(before, steps);
        return Deferred;
      }
      StepsKeepWall(before, steps);
      return Materialized;
    }

    /** considerPublication: the gate, and what each of its answers stores. */
    method ConsiderPublication(snap: Snapshot, theme: bool, fromWorker: bool, palette: string, now: int,
                               c: Correction, a: Attempt)
      returns (readme: Readme)
      requires At(map[]) && store.projection.Some?
      modifies this`steps, store
      ensures Advanced(old(steps), old(store.View()))
      ensures var rows := old(store.View());
              var d := GateFor(rows, snap, now, theme, fromWorker, c);
              && readme == WordFor(d, Done(rows, palette, a))
              && VerifiedWall(store.View()) == WallWhen(d.PublishNow? && a.configured, rows, palette, a)
              && (!d.PublishNow? ==> store.View() == Answered(rows, snap, d))
      ensures Undisturbed(a) ==> StoredSnap(store.View()) == StoredSnap(old(store.View()))
    {
      ghost var before := steps;
      var verified := VerifiedWall(store.View());
      var d := GateFor(store.View(), snap, now, theme, fromWorker, c);
      match d {
        case NoChange(_) =>
          if verified.Some? && snap.id != "" && snap.id == verified.value.id {
            Apply(snap.id, map[]);
          }
          readme := Coalesced;
        case Blocked(why) =>
          if why != UnknownVerified {
            Intend(snap.id, BlockedData, why, None, 0);
          }
          readme := Withheld;
        case WaitUntil(due) =>
          Intend(snap.id, InFlight, Cooldown, Some(due), 0);
          readme := Waiting;
        case RetryPending =>
          var row := store.projection.value;
          Intend(snap.id, Failed, if row.reason.ThemeOf? then row.reason else Retry, row.due, row.retries);
          readme := Coalesced;
        case PublishNow(_) =>
          readme := PublishUsageNow(snap, theme, palette, now, c, a);
      }
      StepsKeepWall(before, steps);
    }

    /** putPublicProjection: a device bearer carries no correction permit. */
    method PutPublicProjection(snap: Snapshot, palette: string, now: int, a: Attempt) returns (answer: PutAnswer)
      requires At(map[])
      modifies this`steps, store
      ensures Advanced(old(steps), old(store.View()))
      ensures answer.Accepted? <==> Passes(old(store.View()), snap)
      ensures answer.Invalid? <==> !K.WellFormed(snap)
      ensures answer.KeptCoverage? <==>
              K.WellFormed(snap) && old(store.projection).Some?
              && !K.ShouldReplace(old(store.projection).value.snap, snap)
      ensures answer.KeptRegression? <==>
              K.WellFormed(snap) && old(store.projection).Some?
              && K.ShouldReplace(old(store.projection).value.snap, snap)
              && K.TokenRegressed(old(store.projection).value.snap, snap)
      ensures !answer.Accepted? ==> store.View() == old(store.View())
      ensures answer.Accepted? ==>
                var rows := Saving(old(store.View()), snap);
                var d := GateFor(rows, snap, now, false, false, NO_CORRECTION);
                && answer.readme == WordFor(d, Done(rows, palette, a))
                && VerifiedWall(store.View()) == WallWhen(d.PublishNow? && a.configured, rows, palette, a)
      ensures answer == Accepted(Materialized) && a.queued == [] ==> VerifiedAs(store.View(), snap.id)
      ensures answer == Accepted(Waiting) ==> HeldForRollover(store.View(), snap)
      ensures DaysOutcome(old(store.View()), store.View(), snap, palette, now, a, answer)
      ensures answer.Accepted? && Undisturbed(a) ==> StoredSnap(store.View()) == Some(snap)
    {
      ghost var before := steps;
      ghost var was := store.View();
      answer := ReadCompareSave(snap, map[]);
      if answer.Accepted? {
        var readme := ConsiderPublication(snap, false, false, palette, now, NO_CORRECTION, a);
        answer := Accepted(readme);
      }
      FollowedIsOutcome(was, store.View(), snap, palette, now, a, answer);
      StepsKeepWall(before, steps);
    }

    /** retryFailedReadmes: while something is due, a failed theme is published without asking
        the gate, and anything else is put to it. */
    method RetryFailedReadmes(palette: string, now: int, a: Attempt)
      requires At(map[])
      modifies this`steps, store
      ensures Advanced(old(steps), old(store.View()))
      ensures !Due(old(store.View()), now) || old(store.projection).value.snap.id == "" ==>
                store.View() == old(store.View())
      ensures Due(old(store.View()), now) && Owed(old(store.View())) && Undisturbed(a) && a.configured
              && Reaches(old(store.View()), palette, a) ==>
                VerifiedWall(store.View()) == ShownWall(old(store.projection).value.snap)
      ensures Due(old(store.View()), now) && old(store.projection).value.snap.id != "" ==>
                var rows, row := old(store.View()), old(store.projection).value;
                if row.status == Failed && row.reason.ThemeOf? then
                  && VerifiedWall(store.View()) == WallAfter(rows, row.reason.palette, a)
                  && (!KnownPalette(row.reason.palette) ==> store.View() == rows)
                  && (KnownPalette(row.reason.palette) && Reported(rows, row.reason.palette, a).Some? ==>
                        Filed(store.View(), row.snap.id, row.reason, Reported(rows, row.reason.palette, a).value, now))
                else
                  var d := GateFor(rows, row.snap, now, false, true, NO_CORRECTION);
                  && VerifiedWall(store.View()) == WallWhen(d.PublishNow? && a.configured, rows, palette, a)
                  && (!d.PublishNow? ==> store.View() == Answered(rows, row.snap, d))
    {
      ghost var before := steps;
      if Due(store.View(), now) && store.projection.value.snap.id != "" {
        if Owed(store.View()) {
          WorkerPays(store.View(), now);
        }
        var row := store.projection.value;
        if row.status == Failed && row.reason.ThemeOf? {
          var wanted := row.reason.palette;
          if KnownPalette(wanted) {
            var failure := PublishPalette(wanted, a);
            if failure.Some? {
              NotePublishFailure(row.snap.id, ThemeOf(wanted), failure.value, now);
            }
          }
        } else {
          var _ := ConsiderPublication(row.snap, false, true, palette, now, NO_CORRECTION, a);
        }
      }
      StepsKeepWall(before, steps);
    }

    /** postPublicPublish: the owner changes the theme. */
    method PostPublicPublish(palette: string, now: int, a: Attempt) returns (accepted: bool)
      requires At(map[])
      modifies this`steps, store
      ensures Advanced(old(steps), old(store.View()))
      ensures accepted <==> old(store.projection).Some? ==>
                GateFor(old(store.View()), old(store.projection).value.snap, now, true, false, NO_CORRECTION)
                .PublishNow?
      ensures VerifiedWall(store.View()) == WallWhen(accepted, old(store.View()), palette, a)
      ensures !accepted ==> store.View() == old(store.View())
    {
      ghost var before := steps;
      if store.projection.Some? {
        var snap := store.projection.value.snap;
        var d := GateFor(store.View(), snap, now, true, false, NO_CORRECTION);
        if !d.PublishNow? {
          StepsKeepWall(before, steps);
          return false;
        }
      }
      var failure := PublishPalette(palette, a);
      if failure.Some? && store.projection.Some? {
        NotePublishFailure(store.projection.value.snap.id, ThemeOf(palette), failure.value, now);
      }
      StepsKeepWall(before, steps);
      return true;
    }

    /** postPublicRetry: the failed job again, without asking the gate. */
    method PostPublicRetry(palette: string, a: Attempt) returns (failure: Option<Failure>)
      requires At(map[])
      modifies this`steps, store
      ensures Advanced(old(steps), old(store.View()))
      ensures failure == Reported(old(store.View()), palette, a)
      ensures VerifiedWall(store.View()) == WallAfter(old(store.View()), palette, a)
    {
      failure := PublishPalette(palette, a);
    }

    /** A start of the server: no job survives, and the verified identity is backfilled. */
    method Start()
      requires At(map[])
      modifies this`steps, store
      ensures Advanced(old(steps), old(store.View()))
    {
      ghost var before := steps;
      Record(Restart(0), World(store.View(), map[], map[]));
      store.Backfill();
      ghost var idle: map<int, Job> := map[];
      assert idle - {0} == idle;
      StepsKeepWall(before, steps);
    }
  }
}
