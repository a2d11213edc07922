/** One run of publishPalette in internal/hosted/publish_job.go: what can happen around it,
    and how it ends, said in terms of the rows it starts from. */
module WallAttempt {
  import opened Clock
  import opened PublishPolicy
  import opened Snapshots
  import opened WallProtocol
  import opened WallStore
  import opened Wrappers
  import K = ProjectionKeep

  /** Why a publish attempt failed, as far as the retry plan tells errors apart. */
  datatype Failure = Auth | Busy | RateLimit(wait: int) | Transient | Conflict | Unverified | Write

  /** How configuration, the other requests and GitHub behave. queued are uploads that land
      while the job waits for its turn, between and during those that land once it has read
      its row; recorded says whether the job row could be written at the end. */
  datatype Attempt = Attempt(configured: bool, refused: Option<Failure>, queued: seq<Snapshot>,
                             between: seq<Snapshot>, token: string, start: int, acquireAt: int,
                             during: seq<Snapshot>, remote: Option<Failure>, presented: bool, stampAt: int,
                             recorded: bool)

  predicate KnownPalette(palette: string) {
    palette in {"cobalt", "magenta", "newsprint"}
  }

  /** No other upload lands while the job waits or runs. */
  predicate Undisturbed(a: Attempt) {
    a.queued == [] && a.between == [] && a.during == []
  }

  // ---------- what an attempt depends on ----------

  /** The snapshot the job reads: the stored one, after the uploads that were queued. */
  function RowRead(r: Rows, a: Attempt): Option<Snapshot> {
    K.PutAll(StoredSnap(r), a.queued)
  }

  /** The lease columns; a row that does not exist holds no lease. */
  function LeaseOf(r: Rows): (Option<string>, Option<int>) {
    if r.projection.None? then (None, None) else (r.projection.value.leaseToken, r.projection.value.leaseUntil)
  }

  predicate LeaseOpen(r: Rows, token: string, now: int) {
    var (holder, until) := LeaseOf(r);
    until.None? || until.value < now || holder == Some(token)
  }

  /** Nothing is shown that was verified after the job began. */
  predicate CanShow(r: Rows, id: string, start: int) {
    r.presentation.Some? ==>
      var row := r.presentation.value;
      row.readmeId == "" || row.readmeId == id || (row.at.Some? && row.at.value <= start + SECOND)
  }

  /** The attempt gets as far as verifying the wall: the palette is known, the publisher is
      configured, there is a row, the lease can be had, GitHub and the presentation row go
      through, and nothing newer is shown. */
  predicate Reaches(r: Rows, palette: string, a: Attempt) {
    && KnownPalette(palette) && a.refused.None? && RowRead(r, a).Some? && LeaseOpen(r, a.token, a.acquireAt)
    && a.remote.None? && a.presented && CanShow(r, RowRead(r, a).value.id, a.start)
  }

  /** How it is reported. */
  function Reported(r: Rows, palette: string, a: Attempt): Option<Failure> {
    if Reaches(r, palette, a) && a.recorded then None
    else if KnownPalette(palette) && a.refused.Some? then a.refused
    else if !KnownPalette(palette) || RowRead(r, a).None? then Some(Write)
    else if !LeaseOpen(r, a.token, a.acquireAt) then Some(Busy)
    else if a.remote.Some? then a.remote
    else Some(Write)
  }

  function ShownWall(snap: Snapshot): Option<Wall> {
    if snap.id == "" then None else Some(Wall(snap.id, snap.total, snap.asOf))
  }

  /** The verified wall it leaves. */
  function WallAfter(r: Rows, palette: string, a: Attempt): Option<Wall> {
    if Reaches(r, palette, a) then ShownWall(RowRead(r, a).value) else VerifiedWall(r)
  }

  /** Without other uploads: the wall is reached exactly when the palette is one of the three, nothing
      refuses the attempt, a snapshot is stored, nobody else holds an unexpired lease, GitHub and
      the presentation row go through, and what is shown is nothing, this snapshot, or was
      verified at most a second after the start. */
  lemma ReachesIff(r: Rows, palette: string, a: Attempt)
    requires Undisturbed(a)
    ensures Reaches(r, palette, a) <==>
              && (palette == "cobalt" || palette == "magenta" || palette == "newsprint") && a.refused.None?
              && r.projection.Some?
              && (var row := r.projection.value;
                  && (row.leaseUntil.Some? && row.leaseUntil.value >= a.acquireAt ==> row.leaseToken == Some(a.token))
                  && (r.presentation.Some? ==>
                        var p := r.presentation.value;
                        p.readmeId in {"", row.snap.id} || (p.at.Some? && p.at.value - a.start <= 1_000_000_000)))
              && a.remote.None? && a.presented
  {
  }

  /** A publication that is not through is reported by its first cause. */
  lemma ReportedCause(r: Rows, palette: string, a: Attempt)
    requires Undisturbed(a) && palette == "cobalt"
    ensures a.refused.Some? ==> Reported(r, palette, a) == a.refused
    ensures a.refused.None? && r.projection.None? ==> Reported(r, palette, a) == Some(Write)
    ensures a.refused.None? && r.projection.Some? ==>
              var row := r.projection.value;
              var taken := row.leaseUntil.Some? && row.leaseUntil.value >= a.acquireAt
                           && row.leaseToken != Some(a.token);
              && (taken ==> Reported(r, palette, a) == Some(Busy))
              && (!taken && a.remote.Some? ==> Reported(r, palette, a) == a.remote)
              && (!taken && a.remote.None? && (!a.presented || !a.recorded) ==> Reported(r, palette, a) == Some(Write))
  {
  }

  // ---------- what an attempt does not depend on ----------

  /** Everything above reads the stored snapshot, the lease and the presentation only. */
  lemma SameAttempt(r: Rows, s: Rows, palette: string, a: Attempt)
    requires StoredSnap(r) == StoredSnap(s) && LeaseOf(r) == LeaseOf(s) && r.presentation == s.presentation
    ensures RowRead(r, a) == RowRead(s, a) && Reaches(r, palette, a) == Reaches(s, palette, a)
    ensures Reported(r, palette, a) == Reported(s, palette, a) && WallAfter(r, palette, a) == WallAfter(s, palette, a)
  {
    assert RowRead(r, a) == RowRead(s, a);
    assert LeaseOpen(r, a.token, a.acquireAt) == LeaseOpen(s, a.token, a.acquireAt);
    assert Reaches(r, palette, a) == Reaches(s, palette, a);
    assert VerifiedWall(r) == VerifiedWall(s);
  }

  /** An upload that lands changes at most the stored snapshot. */
  lemma PuttingKeepsLease(r: Rows, snap: Snapshot)
    ensures StoredSnap(Putting(r, snap)) == K.Put(StoredSnap(r), snap)
    ensures LeaseOf(Putting(r, snap)) == LeaseOf(r) && Putting(r, snap).presentation == r.presentation
  {
  }

  /** The report is a failure although the wall has moved exactly when the attempt reached the
      wall and only its job row could not be written. */
  lemma MovedButReportedIff(r: Rows, palette: string, a: Attempt)
    requires RowRead(r, a).Some? && VerifiedWall(r) != ShownWall(RowRead(r, a).value)
    ensures Reported(r, palette, a).Some? && WallAfter(r, palette, a) != VerifiedWall(r)
            <==> Reaches(r, palette, a) && !a.recorded
  {
  }

  /** A first publication whose job row is lost: reported as failed, and shown. */
  lemma UnrecordedFirst(snap: Snapshot)
    requires K.WellFormed(snap)
    ensures var r := Saving(Rows(None, None), snap);
            var a := Attempt(true, None, [], [], "one", 0, 0, [], None, true, 0, false);
            Reported(r, "cobalt", a) == Some(Write) && VerifiedWall(r) == None
            && WallAfter(r, "cobalt", a) == Some(Wall(snap.id, snap.total, snap.asOf))
  {
  }
}
