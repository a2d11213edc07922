/** Model of internal/publicprofile/publish_policy.go and correction.go: the one gate
    that decides whether a snapshot may update the verified wall. */
module PublishPolicy {
  import opened Clock
  import opened Snapshots
  import opened Wrappers
  import K = ProjectionKeep

  // ---------- the inputs ----------

  /** The wall last verified on GitHub; None is a wall never proven. */
  datatype Wall = Wall(id: string, total: Option<int>, asOf: Option<int>)

  /** Why a publication is wanted. */
  datatype Why =
    | NoWhy
    | Usage
    | Date
    | Theme
    | ThemeOf(palette: string)
    | First
    | Retry
    | Cooldown
    | Delta
    | CoverageLost
    | NoData
    | EarlierDate
    | UnknownVerified
    | Negative
    | Corrected
    | CorrectedBy(delta: int)
    | Offline
    | Same

  datatype Pending = Pending(id: string, reason: Why, failed: bool)

  /** The ledger's permit for one evidenced drop. reason is whether it names one. */
  datatype Correction = Correction(reason: bool, delta: int)

  const NO_CORRECTION := Correction(false, 0)

  /** now is None when the clock was not given; it counts nanoseconds of UTC. */
  datatype Input = Input(candidate: Snapshot, accepted: Option<Snapshot>, verified: Option<Wall>, pending: Pending,
                         now: Option<int>, theme: bool, offline: bool, fromWorker: bool, correction: Correction)

  datatype Decision = PublishNow(why: Why) | WaitUntil(due: int) | NoChange(why: Why) | RetryPending | Blocked(why: Why)

  /** Raw growth that counts: 0.01M below one billion tokens, 0.01B from there on. */
  const MIN_DELTA: int := 10_000
  const MIN_DELTA_B: int := 10_000_000
  const BILLION: int := 1_000_000_000
  const MERGE_WINDOW: int := 4 * HOUR

  /** Explains: exactly this drop, never another. */
  predicate Explains(c: Correction, prev: int, next: int) {
    c.reason && c.delta > 0 && next < prev && prev - next == c.delta
  }

  predicate Earlier(a: Option<int>, b: Option<int>) {
    a.Some? && b.Some? && a.value < b.value
  }

  /** The owner's clock: UTC moved by a valid offset, or UTC itself. */
  function OwnerClock(now: int, offset: Option<int>): int {
    if offset.Some? && -840 <= offset.value <= 840 then now + offset.value * MINUTE else now
  }

  function OwnerDay(now: int, offset: Option<int>): int {
    OwnerClock(now, offset) / DAY
  }

  /** The instant of the owner's next midnight. */
  function NextMidnight(now: int, offset: Option<int>): int {
    now + DAY - OwnerClock(now, offset) % DAY
  }

  // ---------- the gate ----------

  predicate KeptOut(x: Input) {
    && x.accepted.Some? && x.accepted.value.id != "" && x.accepted.value.id != x.candidate.id
    && !K.ShouldReplace(x.accepted.value, x.candidate)
  }

  /** The candidate is below a proven total. */
  predicate Lower(x: Input) {
    && x.verified.Some? && x.verified.value.total.Some? && x.candidate.total.Some?
    && x.candidate.total.value < x.verified.value.total.value
  }

  predicate Explained(x: Input)
    requires Lower(x)
  {
    Explains(x.correction, x.verified.value.total.value, x.candidate.total.value)
  }

  predicate Rollover(x: Input) {
    x.verified.Some? && Earlier(x.verified.value.asOf, x.candidate.asOf)
  }

  predicate SameAsVerified(x: Input) {
    x.verified.Some? && x.candidate.id != "" && x.candidate.id == x.verified.value.id
  }

  predicate Retryable(x: Input) {
    x.pending.failed && x.pending.id != "" && !SameAsVerified(x)
  }

  /** Nothing the wall should not show: the candidate is measured, may replace what was
      accepted, is of no earlier local day than the proven wall, and is no lower than a
      proven total unless the permit is exactly the drop. */
  predicate Safe(x: Input) {
    && !x.offline && x.candidate.total.Some? && x.candidate.status != Unavailable && !KeptOut(x)
    && (x.verified.Some? ==> !Earlier(x.candidate.asOf, x.verified.value.asOf))
    && (x.verified.Some? && x.verified.value.total.Some? ==>
          var drop := x.verified.value.total.value - x.candidate.total.value;
          drop <= 0 || (x.correction.reason && x.correction.delta == drop))
  }

  /** DecidePublication. Whatever the path, only a safe candidate is published or held
      for midnight, and what is held has grown. */
  function Decide(x: Input): (d: Decision)
    ensures d.PublishNow? || d.WaitUntil? || d.RetryPending? ==> Safe(x)
    ensures d.WaitUntil? ==> x.verified.Some? && x.verified.value.total.Some? && !Lower(x)
                             && x.candidate.total.value >= x.verified.value.total.value + MIN_DELTA
    ensures Lower(x) && !x.offline && !KeptOut(x) && x.candidate.status != Unavailable ==>
              (d.PublishNow? <==> Explained(x) && !Earlier(x.candidate.asOf, x.verified.value.asOf))
  {
    if x.offline then Blocked(Offline)
    else if x.candidate.status == Unavailable || x.candidate.total.None? then Blocked(NoData)
    else if KeptOut(x) then Blocked(CoverageLost)
    else if Lower(x) && !Explained(x) then Blocked(Negative)
    else if x.verified.Some? && Earlier(x.candidate.asOf, x.verified.value.asOf) then NoChange(EarlierDate)
    else if Lower(x) then PublishNow(Corrected)
    else if x.theme then PublishNow(Theme)
    else if Rollover(x) then if x.verified.value.total.None? then Blocked(UnknownVerified) else PublishNow(Date)
    else if Retryable(x) then if x.fromWorker then PublishNow(Retry) else RetryPending
    else DecideUsage(x)
  }

  /** The rest of the gate, for a snapshot of the verified day or without one. */
  function DecideUsage(x: Input): Decision
    requires x.candidate.total.Some?
  {
    if x.verified.None? || x.verified.value.id == "" then PublishNow(First)
    else if SameAsVerified(x) then NoChange(Same)
    else if x.verified.value.total.None? then Blocked(UnknownVerified)
    else if HeldForMidnight(x) then NoChange(EarlierDate)
    else if x.candidate.total.value - x.verified.value.total.value < MinDelta(x) then NoChange(Delta)
    else if NearMidnight(x) then WaitUntil(NextMidnight(x.now.value, x.candidate.offset))
    else PublishNow(Usage)
  }

  /** Growth already held for midnight, and the owner's new day has begun. */
  predicate HeldForMidnight(x: Input) {
    && x.now.Some? && x.pending.reason == Cooldown && x.candidate.asOf.Some?
    && x.candidate.asOf.value < OwnerDay(x.now.value, x.candidate.offset)
  }

  function MinDelta(x: Input): int
    requires x.candidate.total.Some? && x.verified.Some? && x.verified.value.total.Some?
  {
    if x.candidate.total.value >= BILLION || x.verified.value.total.value >= BILLION then MIN_DELTA_B else MIN_DELTA
  }

  /** The candidate is of the owner's today, with at most four hours of it left. */
  predicate NearMidnight(x: Input) {
    && x.now.Some? && x.candidate.asOf == Some(OwnerDay(x.now.value, x.candidate.offset))
    && NextMidnight(x.now.value, x.candidate.offset) - x.now.value <= MERGE_WINDOW
  }

  // ---------- what the gate guarantees ----------

  /** A wait ends within four hours, at the start of the owner's next day, and nothing of
      the old day is published then while it is still held. */
  lemma WaitEndsAtRollover(x: Input, later: Input)
    requires Decide(x).WaitUntil?
    requires later == x.(now := Some(Decide(x).due), pending := Pending(x.candidate.id, Cooldown, false),
                         fromWorker := true)
    ensures x.now.Some? && x.now.value < Decide(x).due <= x.now.value + MERGE_WINDOW
    ensures OwnerDay(Decide(x).due, x.candidate.offset) == x.candidate.asOf.value + 1
    ensures Decide(later) == NoChange(EarlierDate)
  {
    var day := OwnerDay(x.now.value, x.candidate.offset) + 1;
    assert (day * DAY) / DAY == day;
  }

  /** On a later local day a measured snapshot is never held, coalesced or left alone: it
      is published, whatever was pending and however small its growth, or it is blocked.
      It is published exactly when it may replace what was accepted and the proven total
      is not above it or explained; against an unknown total only a theme is. */
  lemma RolloverDecides(x: Input)
    requires Rollover(x) && x.candidate.status != Unavailable && x.candidate.total.Some?
    ensures Decide(x).PublishNow? || Decide(x).Blocked?
    ensures Decide(x).PublishNow? <==>
              && !x.offline && !KeptOut(x)
              && (match x.verified.value.total
                  case None => x.theme
                  case Some(total) =>
                    x.candidate.total.value >= total || Explains(x.correction, total, x.candidate.total.value))
    ensures Decide(x).PublishNow? ==>
              Decide(x).why == if Lower(x) then Corrected else if x.theme then Theme else Date
  {
  }

  /** Where no theme, rollover, retry or first publication applies, a snapshot of the
      verified day is published exactly when it grew enough and midnight is not near. */
  lemma UsageNeedsGrowth(x: Input)
    requires x.verified.Some? && x.verified.value.id != "" && x.verified.value.total.Some?
    requires x.candidate.total.Some? && x.candidate.id != x.verified.value.id
             && x.candidate.asOf == x.verified.value.asOf
    requires !x.theme && !x.pending.failed && x.pending.reason != Cooldown && x.accepted == Some(x.candidate)
    requires x.candidate.status != Unavailable && !x.offline
    ensures var growth := x.candidate.total.value - x.verified.value.total.value;
            Decide(x).PublishNow? <==>
              || (growth < 0 && x.correction == Correction(true, -growth))
              || (growth >= (if x.candidate.total.value >= BILLION then MIN_DELTA_B else MIN_DELTA) && !NearMidnight(x))
  {
  }

  // ---------- what is published, said with the inputs ----------

  /** A measured total, of a snapshot that is the accepted one or may replace it. */
  predicate Presentable(x: Input) {
    && !x.offline && x.candidate.status != Unavailable && x.candidate.total.Some?
    && (x.accepted.None? || x.accepted.value.id == "" || x.accepted.value.id == x.candidate.id
        || K.ShouldReplace(x.accepted.value, x.candidate))
  }

  /** The proven wall is of the same local day, or one of the days is unknown. */
  predicate SameDay(x: Input) {
    x.verified.Some? && x.verified.value.asOf.Some? && x.candidate.asOf.Some? ==>
      x.verified.value.asOf == x.candidate.asOf
  }

  predicate NotBelowWall(x: Input) {
    x.verified.Some? && x.verified.value.total.Some? && x.candidate.total.Some? ==>
      x.candidate.total.value >= x.verified.value.total.value
  }

  /** The wall is proven as this snapshot. */
  predicate ShownAlready(x: Input) {
    x.verified.Some? && x.candidate.id != "" && x.verified.value.id == x.candidate.id
  }

  /** A failed intent is retried by the worker, without any growth, and by nobody else: a
      client's upload is coalesced onto it. */
  lemma FailedIntentIsTheWorkers(x: Input)
    requires Presentable(x) && SameDay(x) && NotBelowWall(x) && !x.theme && !ShownAlready(x)
    requires x.pending.failed && x.pending.id != ""
    ensures Decide(x) == if x.fromWorker then PublishNow(Retry) else RetryPending
  {
  }

  /** Without a failed intent, a wall that was never proven is published at once, the proven
      snapshot is left alone, and against an unknown total nothing is published. */
  lemma QuietIntentDecides(x: Input)
    requires Presentable(x) && SameDay(x) && NotBelowWall(x) && !x.theme
    requires !x.pending.failed || x.pending.id == "" || ShownAlready(x)
    ensures x.verified.None? || x.verified.value.id == "" ==> Decide(x) == PublishNow(First)
    ensures ShownAlready(x) ==> Decide(x) == NoChange(Same)
    ensures var other := x.verified.Some? && x.verified.value.id != "" && x.verified.value.id != x.candidate.id;
            other && x.verified.value.total.None? ==> Decide(x) == Blocked(UnknownVerified)
  {
  }

  /** A theme is published whatever the growth, the time and the failures are. */
  lemma ThemeIsImmediate(x: Input)
    requires Presentable(x) && NotBelowWall(x) && x.theme
    requires x.verified.Some? && x.verified.value.asOf.Some? && x.candidate.asOf.Some? ==>
               x.verified.value.asOf.value <= x.candidate.asOf.value
    ensures Decide(x) == PublishNow(Theme)
  {
  }

  /** On the proven day, with a known total and nothing failed: enough growth is published, or
      held if at most four hours of the owner's day are left, and less is not. What is held
      already and of a past day waits for the new day's snapshot. */
  lemma GrowthDecides(x: Input)
    requires Presentable(x) && SameDay(x) && !x.theme && !x.pending.failed
    requires x.verified.Some? && x.verified.value.id != "" && x.verified.value.id != x.candidate.id
    requires x.verified.value.total.Some? && x.candidate.total.value >= x.verified.value.total.value
    ensures var growth := x.candidate.total.value - x.verified.value.total.value;
            var enough := growth >= if x.candidate.total.value >= 1_000_000_000 then 10_000_000 else 10_000;
            var offset := if x.candidate.offset.Some? && -840 <= x.candidate.offset.value <= 840
                          then x.candidate.offset.value else 0;
            var clock := x.now.GetOr(0) + offset * MINUTE;
            var past := x.now.Some? && x.pending.reason == Cooldown && x.candidate.asOf.Some?
                        && x.candidate.asOf.value < clock / DAY;
            var late := x.now.Some? && x.candidate.asOf == Some(clock / DAY) && DAY - clock % DAY <= 4 * HOUR;
            Decide(x) == if past then NoChange(EarlierDate)
                         else if !enough then NoChange(Delta)
                         else if late then WaitUntil(x.now.value + DAY - clock % DAY)
                         else PublishNow(Usage)
  {
  }

  /** What is not measured, not online, not better than what was accepted, or lower than proven
      without a permit for exactly that drop is blocked; what is of an earlier day is left alone. */
  lemma OthersAreStopped(x: Input)
    ensures x.offline ==> Decide(x) == Blocked(Offline)
    ensures !x.offline && (x.candidate.status == Unavailable || x.candidate.total.None?) ==>
              Decide(x) == Blocked(NoData)
    ensures !x.offline && x.candidate.status != Unavailable && x.candidate.total.Some? && !Presentable(x) ==>
              Decide(x) == Blocked(CoverageLost)
    ensures Presentable(x) && !NotBelowWall(x) ==>
              var drop := x.verified.value.total.value - x.candidate.total.value;
              (Decide(x) == Blocked(Negative) <==> !(x.correction.reason && x.correction.delta == drop))
    ensures Presentable(x) && NotBelowWall(x) && x.verified.Some? && x.verified.value.asOf.Some?
            && x.candidate.asOf.Some? && x.candidate.asOf.value < x.verified.value.asOf.value ==>
              Decide(x) == NoChange(EarlierDate)
  {
  }
}
