/** Model of internal/publicprofile/refresh_policy.go and refresh_apply.go: the client's
    upload gate, and one refresh against the modelled server over a faulty network. */
module RefreshClient {
  import opened PublishPolicy
  import opened Snapshots
  import opened WallAttempt
  import opened WallServer
  import opened WallStore
  import opened Wrappers
  import WallProtocol
  import K = ProjectionKeep

  datatype Phase = Idle | Published | Skipped | Pausing | Broken

  datatype Code =
    | NoCode
    | CodePublished
    | DateRollover
    | SkippedCooldown
    | SkippedDelta
    | WillRetry
    | WaitingCooldown
    | PendingGitHub
    | BlockedByData
    | BlockedRegression
    | Verified
    | CodeOffline

  datatype Action = NoAction | Publishing | Pause | Retrying

  /** Labels and agent lists are left out. */
  datatype Refresh = Refresh(publish: bool, phase: Phase, code: Code, action: Action)

  /** The envelope, as the client reads it. */
  datatype RemoteView = RemoteView(snapshot: Option<Snapshot>, wallKnown: bool, wall: Option<Wall>, pending: Pending)

  datatype Outcome = Decided(d: Refresh) | AlreadyStored(d: Refresh) | Rejected | Transport | NotSignedIn

  /** The readme word of an upload's answer; an old server sends none. */
  datatype Word = NoWord | Word(readme: Readme)

  // ---------- the gate ----------

  function SkippedFor(code: Code): Refresh {
    Refresh(false, Skipped, code, NoAction)
  }

  /** Without a wall in the envelope the accepted snapshot is the only watermark. */
  function SeenWall(v: RemoteView): Option<Wall> {
    if !v.wallKnown && v.snapshot.Some?
      then Some(Wall(v.snapshot.value.id, v.snapshot.value.total, v.snapshot.value.asOf))
    else v.wall
  }

  function GateInput(local: Snapshot, v: RemoteView, now: Option<int>, c: Correction): Input {
    Input(local, v.snapshot, SeenWall(v), v.pending, now, false, false, false, c)
  }

  /** refreshFromPublication. */
  function FromPublication(d: Decision, local: Snapshot, v: RemoteView): Refresh {
    match d
    case PublishNow(why) => Refresh(true, Published, if why == Date then DateRollover else CodePublished, Publishing)
    case WaitUntil(_) =>
      Refresh(!(v.snapshot.Some? && v.snapshot.value.id == local.id), Pausing, WaitingCooldown, Pause)
    case RetryPending => Refresh(false, Pausing, PendingGitHub, Retrying)
    case Blocked(why) =>
      SkippedFor(if why == Negative then BlockedRegression else if why == Cooldown then SkippedCooldown
                 else BlockedByData)
    case NoChange(why) =>
      SkippedFor(if why in {EarlierDate, Same, Delta} || v.snapshot.Some? then SkippedDelta else NoCode)
  }

  /** The server already stores this very snapshot. */
  predicate AlreadyThere(local: Snapshot, v: RemoteView) {
    v.snapshot.Some? && v.snapshot.value.id == local.id
  }

  /** DecideRefresh of a client that is online. */
  function DecideRefresh(local: Snapshot, v: RemoteView, now: Option<int>, c: Correction): (r: Refresh)
    ensures r.publish ==> Safe(GateInput(local, v, now, c))
    ensures var d := Decide(GateInput(local, v, now, c));
            r.publish <==> d.PublishNow? || (d.WaitUntil? && !AlreadyThere(local, v))
    ensures r.code != Verified
  {
    FromPublication(Decide(GateInput(local, v, now, c)), local, v)
  }

  /** decisionAfterPut: only the server's own word makes a wall published. */
  function AfterPut(d: Refresh, w: Word): (r: Refresh)
    ensures d.code != Verified ==> (r.code == Verified <==> w == Word(Materialized))
  {
    match w
    case NoWord => d
    case Word(Materialized) =>
      if d.code == DateRollover then d.(code := Verified) else Refresh(true, Published, Verified, Publishing)
    case Word(Waiting) => d.(publish := true, phase := Pausing, code := WaitingCooldown, action := Pause)
    case Word(Deferred) => Refresh(false, Pausing, PendingGitHub, Retrying)
    case Word(_) =>
      if d.action == Publishing then SkippedFor(BlockedByData)
      else d.(publish := false, phase := if d.phase == Published then Skipped else d.phase)
  }

  // ---------- the modelled server, as the client sees it ----------

  /** The public envelope of the rows. A legacy server sends no wall. */
  function EnvelopeOf(r: Rows, legacy: bool): RemoteView {
    match r.projection
    case None => RemoteView(None, false, None, Pending("", NoWhy, false))
    case Some(row) =>
      var shown := if row.snap.id == "" then None else Some(row.snap);
      if legacy then RemoteView(shown, false, None, Pending("", NoWhy, false))
      else RemoteView(shown, true, VerifiedWall(r), PendingSent(row, VerifiedWall(r)))
  }

  /** The reason of an intent is not in the envelope. */
  function PendingSent(row: Projection, wall: Option<Wall>): Pending {
    var sent := row.desired != "" && row.desired != (if wall.Some? then wall.value.id else "")
      && row.status in {InFlight, Failed, BlockedAuth};
    Pending(if sent then row.desired else "", NoWhy, (sent && row.status in {Failed, BlockedAuth})
            || row.status == Failed)
  }

  /** What the fetched envelope allowed to be uploaded: never less than the wall it showed,
      unless the permit is the drop, never an earlier local day, never an unknown total. */
  predicate Allowed(local: Snapshot, v: RemoteView, c: Correction) {
    && local.total.Some? && local.status != Unavailable
    && (v.snapshot.Some? && v.snapshot.value.id != local.id ==> K.ShouldReplace(v.snapshot.value, local))
    && (SeenWall(v).Some? ==> !Earlier(local.asOf, SeenWall(v).value.asOf))
    && (SeenWall(v).Some? && SeenWall(v).value.total.Some? ==>
          local.total.value >= SeenWall(v).value.total.value
          || Explains(c, SeenWall(v).value.total.value, local.total.value))
  }

  /** The gate wants the local snapshot on the wall, and the server does not store it yet. */
  predicate Wanted(local: Snapshot, v: RemoteView, now: Option<int>, c: Correction) {
    var d := Decide(GateInput(local, v, now, c));
    (d.PublishNow? || d.WaitUntil?) && !AlreadyThere(local, v)
  }

  // ---------- what is said, case by case ----------

  /** Without a wall in the envelope the stored snapshot is the watermark. */
  lemma WatermarkIs(v: RemoteView)
    ensures v.wallKnown || v.snapshot.None? ==> SeenWall(v) == v.wall
    ensures !v.wallKnown && v.snapshot.Some? ==>
              && SeenWall(v).Some? && SeenWall(v).value.id == v.snapshot.value.id
              && SeenWall(v).value.total == v.snapshot.value.total && SeenWall(v).value.asOf == v.snapshot.value.asOf
  {
  }

  /** The local snapshot is measured and may replace the stored one. */
  predicate Sendable(local: Snapshot, v: RemoteView) {
    && local.total.Some? && local.status in {Available, Partial}
    && (v.snapshot.Some? && v.snapshot.value.id != "" && v.snapshot.value.id != local.id ==>
          K.ShouldReplace(v.snapshot.value, local))
  }

  /** What a client says and does of a day the wall is not known to be ahead of: the drop without a
      permit, the failed intent that is the server's, the first wall, and the new day. */
  lemma RefreshSays(local: Snapshot, v: RemoteView, now: Option<int>, c: Correction)
    ensures var r, wall := DecideRefresh(local, v, now, c), SeenWall(v);
            && (local.total.None? || local.status == Unavailable ==>
                  r == Refresh(false, Skipped, BlockedByData, NoAction))
            && (Sendable(local, v) ==>
                  var below := wall.Some? && wall.value.total.Some? && local.total.value < wall.value.total.value;
                  var dated := wall.Some? && wall.value.asOf.Some? && local.asOf.Some?;
                  && (below && !c.reason ==> r == Refresh(false, Skipped, BlockedRegression, NoAction))
                  && (!below && dated && local.asOf.value < wall.value.asOf.value ==>
                        r == Refresh(false, Skipped, SkippedDelta, NoAction))
                  && (!below && dated && local.asOf.value > wall.value.asOf.value && wall.value.total.Some? ==>
                        r == Refresh(true, Published, DateRollover, Publishing))
                  && (!below && (dated ==> local.asOf == wall.value.asOf)
                      && !(wall.Some? && local.id != "" && wall.value.id == local.id) ==>
                        if v.pending.failed && v.pending.id != "" then
                          r == Refresh(false, Pausing, PendingGitHub, Retrying)
                        else (wall.None? || wall.value.id == "" ==>
                                r == Refresh(true, Published, CodePublished, Publishing))))
  {
    var x := GateInput(local, v, now, c);
    if Sendable(local, v) && NotBelowWall(x) && SameDay(x) && !ShownAlready(x) {
      if v.pending.failed && v.pending.id != "" {
        FailedIntentIsTheWorkers(x);
      } else {
        QuietIntentDecides(x);
      }
    }
    OthersAreStopped(x);
    hide K.ShouldReplace;
  }

  /** On the wall's own day, with nothing failed: too little growth is skipped, enough is sent, and in
      the owner's last four hours it is sent once and waits for the server's midnight. */
  lemma GrowthSays(local: Snapshot, v: RemoteView, now: Option<int>, c: Correction)
    requires Sendable(local, v) && !v.pending.failed && v.pending.reason != Cooldown
    requires SeenWall(v).Some? && SeenWall(v).value.id !in {"", local.id} && SeenWall(v).value.total.Some?
    requires local.asOf.Some? && SeenWall(v).value.asOf == local.asOf
    requires local.total.value >= SeenWall(v).value.total.value
    ensures var growth := local.total.value - SeenWall(v).value.total.value;
            var r := DecideRefresh(local, v, now, c);
            if growth < (if local.total.value >= 1_000_000_000 then 10_000_000 else 10_000) then
              r == Refresh(false, Skipped, SkippedDelta, NoAction)
            else
              || r == Refresh(true, Published, CodePublished, Publishing)
              || (now.Some?
                  && r == Refresh(!AlreadyThere(local, v), Pausing, WaitingCooldown, Pause))
  {
    GrowthDecides(GateInput(local, v, now, c));
  }

  /** The server's word changes what the client says: only a materialized wall is verified; a waiting
      one stays uploaded; a deferred, withheld or coalesced one is not called published. */
  lemma ServerHasTheWord(d: Refresh)
    ensures AfterPut(d, NoWord) == d
    ensures var r := AfterPut(d, Word(Materialized));
            && r.code == Verified
            && (d.code == DateRollover ==> r.publish == d.publish && r.phase == d.phase && r.action == d.action)
            && (d.code != DateRollover ==> r.publish && r.phase == Published && r.action == Publishing)
    ensures AfterPut(d, Word(Waiting)) == Refresh(true, Pausing, WaitingCooldown, Pause)
    ensures AfterPut(d, Word(Deferred)) == Refresh(false, Pausing, PendingGitHub, Retrying)
    ensures forall w :: w in {Withheld, Coalesced} ==>
              var r := AfterPut(d, Word(w));
              && !r.publish && r.phase != Published
              && (if d.action == Publishing then r == Refresh(false, Skipped, BlockedByData, NoAction)
                  else r.code == d.code && r.action == d.action && (d.phase != Published ==> r.phase == d.phase))
  {
  }

  /** What the envelope shows: the stored snapshot, and to a client that knows of walls the verified
      one, and the intent that the wall does not show yet, and whether it failed. */
  lemma EnvelopeTells(r: Rows, legacy: bool)
    ensures var v := EnvelopeOf(r, legacy);
            && (v.snapshot.Some? <==> r.projection.Some? && r.projection.value.snap.id != "")
            && (v.snapshot.Some? ==> v.snapshot.value == r.projection.value.snap)
            && (legacy || r.projection.None? ==>
                  !v.wallKnown && v.wall.None? && !v.pending.failed && v.pending.id == "")
            && (!legacy && r.projection.Some? ==>
                  var row, wall := r.projection.value, VerifiedWall(r);
                  && v.wallKnown && v.wall == wall
                  && (v.pending.id != "" ==> v.pending.id == row.desired)
                  && (v.pending.id != "" <==>
                        && row.desired != "" && (wall.None? || wall.value.id != row.desired)
                        && (row.status == InFlight || row.status == Failed || row.status == BlockedAuth))
                  && (v.pending.failed <==> row.status == Failed || (row.status == BlockedAuth && v.pending.id != "")))
  {
  }

  // ---------- one refresh ----------

  datatype Fault = Fine | Unsigned | Cut

  /** An upload is delivered, refused on its way, or cut before or after the server took it. */
  datatype PutFault = Delivered | CutBefore | CutAfter | Throttled | Unauthorized | Refused

  /** signed is whether the local snapshot validates and holds nothing private. */
  datatype Network = Network(cancelled: bool, offline: bool, fetch: Fault, valid: bool, put: PutFault, again: Fault,
                             legacy: bool)

  /** The upload is accepted, the server's own gate publishes it, and the publication is done. */
  predicate ServerShows(r: Rows, local: Snapshot, palette: string, clock: int, a: Attempt) {
    && WallProtocol.Passes(r, local)
    && var rows := Saving(r, local);
       GateFor(rows, local, clock, false, false, NO_CORRECTION).PublishNow? && Done(rows, palette, a)
  }

  /** The client gets as far as the upload. */
  predicate Connected(net: Network) {
    !net.cancelled && !net.offline && net.fetch == Fine && net.valid
  }

  method Fetch(server: Server, fault: Fault, legacy: bool) returns (v: Option<RemoteView>)
    ensures v == if fault == Fine then Some(EnvelopeOf(server.store.View(), legacy)) else None
  {
    if fault != Fine {
      return None;
    }
    return Some(EnvelopeOf(server.store.View(), legacy));
  }

  /** stored: a second look after an upload whose answer is not known. */
  method IsStored(server: Server, id: string, fault: Fault, legacy: bool) returns (yes: bool)
    ensures yes <==> id != "" && fault == Fine && server.store.projection.Some?
                     && server.store.projection.value.snap.id == id
  {
    if id == "" {
      return false;
    }
    var v := Fetch(server, fault, legacy);
    return v.Some? && v.value.snapshot.Some? && v.value.snapshot.value.id == id;
  }

  function WordOf(readme: Readme, legacy: bool): Word {
    if legacy then NoWord else Word(readme)
  }

  function KeptCode(answer: PutAnswer, legacy: bool): Code {
    if answer == KeptRegression && !legacy then BlockedRegression else BlockedByData
  }

  /** How an upload ends for the client: refused by the transport, by the server's comparison, or with
      the server's word; when it is cut off only a second look can tell. */
  ghost predicate UploadEnds(rows: Rows, local: Snapshot, net: Network, d: Refresh, out: Outcome) {
    match net.put
    case Unauthorized => out == NotSignedIn
    case Refused => out == Rejected
    case Delivered =>
      if !K.WellFormed(local) then out == Rejected
      else if rows.projection.Some? && !K.ShouldReplace(rows.projection.value.snap, local) then
        out == Decided(Refresh(false, Skipped, BlockedByData, NoAction))
      else if rows.projection.Some? && K.TokenRegressed(rows.projection.value.snap, local) then
        out == Decided(Refresh(false, Skipped, if net.legacy then BlockedByData else BlockedRegression, NoAction))
      else out.Decided? && if net.legacy then out.d == d else exists w: Readme :: out.d == AfterPut(d, Word(w))
    case _ => out == AlreadyStored(d) || out == Transport
  }

  /** An upload that is cut off before the server, throttled or turned away leaves the rows as they are;
      one that reaches it is stored when it may replace what was there. */
  ghost predicate Arrived(r: Rows, after: Rows, local: Snapshot, net: Network, a: Attempt) {
    if net.put == Delivered || net.put == CutAfter then
      WallProtocol.Passes(r, local) && Undisturbed(a) ==> WallProtocol.StoredSnap(after) == Some(local)
    else after == r
  }

  /** The upload itself: the server may take it even when its answer is lost. */
  method Upload(server: Server, local: Snapshot, palette: string, clock: int, a: Attempt, net: Network, d: Refresh)
    returns (out: Outcome)
    requires server.At(map[]) && d.code != Verified
    modifies server`steps, server.store
    ensures server.Advanced(old(server.steps), old(server.store.View()))
    ensures out.Decided? && out.d.code == Verified <==>
            net.put == Delivered && !net.legacy && ServerShows(old(server.store.View()), local, palette, clock, a)
    ensures out.Decided? && out.d.code == Verified && a.queued == [] ==> VerifiedAs(server.store.View(), local.id)
    ensures out.AlreadyStored? ==>
            out.d == d && server.store.projection.Some? && server.store.projection.value.snap.id == local.id
    ensures UploadEnds(old(server.store.View()), local, net, d, out)
    ensures Arrived(old(server.store.View()), server.store.View(), local, net, a)
    ensures net.put in {CutBefore, CutAfter, Throttled} ==>
            (out == AlreadyStored(d) <==>
             && local.id != "" && net.again == Fine && server.store.projection.Some?
             && server.store.projection.value.snap.id == local.id)
  {
    hide GateFor;
    hide Done;
    hide K.ShouldReplace;
    hide K.TokenRegressed;
    hide VerifiedWall;
    ghost var before := server.steps;
    var answer := Invalid;
    if net.put == Delivered || net.put == CutAfter {
      answer := server.PutPublicProjection(local, palette, clock, a);
    } else {
      WallServer.StepsKeepWall(before, server.steps);
    }
    match net.put {
      case Unauthorized =>
        return NotSignedIn;
      case Refused =>
        return Rejected;
      case Delivered =>
        match answer {
          case Invalid => return Rejected;
          case KeptCoverage => return Decided(SkippedFor(KeptCode(answer, net.legacy)));
          case KeptRegression => return Decided(SkippedFor(KeptCode(answer, net.legacy)));
          case Accepted(readme) => return Decided(AfterPut(d, WordOf(readme, net.legacy)));
        }
      case _ =>
        var already := IsStored(server, local.id, net.again, net.legacy);
        return if already then AlreadyStored(d) else Transport;
    }
  }

  /** How a run without an upload ends. */
  ghost predicate EndsBefore(local: Snapshot, v: RemoteView, now: Option<int>, c: Correction, net: Network,
                             out: Outcome)
  {
    var d := DecideRefresh(local, v, now, c);
    if net.cancelled then out == Transport
    else if net.offline then out == Decided(Refresh(false, Skipped, CodeOffline, NoAction))
    else if net.fetch == Unsigned then out == NotSignedIn
    else if net.fetch == Cut then out == Transport
    else if !d.publish then out == Decided(d)
    else if AlreadyThere(local, v) then
      out == AlreadyStored(if d.action == Publishing && (v.wallKnown ==> v.wall.None? || v.wall.value.id != local.id)
                           then Refresh(false, Pausing, PendingGitHub, Retrying) else d)
    else out == Rejected
  }

  /** Everything before the upload: the refresh to go on with, or how the run ends. */
  method Consider(server: Server, local: Snapshot, now: Option<int>, c: Correction, net: Network)
    returns (going: Option<Refresh>, out: Outcome)
    ensures going.Some? <==> Connected(net) && Wanted(local, EnvelopeOf(server.store.View(), net.legacy), now, c)
    ensures going.Some? ==>
            going.value.code != Verified && Safe(GateInput(local, EnvelopeOf(server.store.View(), net.legacy), now, c))
    ensures going.Some? ==>
            going.value == DecideRefresh(local, EnvelopeOf(server.store.View(), net.legacy), now, c)
    ensures going.None? ==> EndsBefore(local, EnvelopeOf(server.store.View(), net.legacy), now, c, net, out)
    ensures going.None? && out.Decided? ==> out.d.code != Verified
    ensures going.None? && out.AlreadyStored? ==>
            server.store.projection.Some? && server.store.projection.value.snap.id == local.id
  {
    if net.cancelled {
      return None, Transport;
    }
    if net.offline {
      return None, Decided(SkippedFor(CodeOffline));
    }
    if net.fetch == Unsigned {
      return None, NotSignedIn;
    }
    var v := Fetch(server, net.fetch, net.legacy);
    if v.None? {
      return None, Transport;
    }
    var d := DecideRefresh(local, v.value, now, c);
    if !d.publish {
      return None, Decided(d);
    }
    if AlreadyThere(local, v.value) {
      var unproven := !v.value.wallKnown || v.value.wall.None? || v.value.wall.value.id != local.id;
      if d.action == Publishing && unproven {
        d := Refresh(false, Pausing, PendingGitHub, Retrying);
      }
      return None, AlreadyStored(d);
    }
    if !net.valid {
      return None, Rejected;
    }
    return Some(d), Transport;
  }

  /** ApplyRefresh: at most one upload, of the local snapshot, sent exactly when the client
      gets that far and the gate wants it, and so only when the fetched envelope allows it.
      VERIFIED is said exactly when that upload's answer arrives and the server shows it; it
      is then the verified wall, unless another upload was queued ahead of the job. A permit
      may let a drop be uploaded, but no refresh lowers what the server stores. */
  method ApplyRefresh(server: Server, local: Snapshot, now: Option<int>, c: Correction, palette: string, clock: int,
                      a: Attempt, net: Network)
    returns (out: Outcome, puts: seq<Snapshot>)
    requires server.At(map[])
    modifies server`steps, server.store
    ensures server.Advanced(old(server.steps), old(server.store.View()))
    ensures var sent := Connected(net) && Wanted(local, EnvelopeOf(old(server.store.View()), net.legacy), now, c);
            puts == if sent then [local] else []
    ensures puts == [] ==> server.store.View() == old(server.store.View())
    ensures puts != [] ==> Allowed(local, EnvelopeOf(old(server.store.View()), net.legacy), c)
    ensures out.Decided? && out.d.code == Verified <==>
            puts == [local] && net.put == Delivered && !net.legacy
            && ServerShows(old(server.store.View()), local, palette, clock, a)
    ensures out.Decided? && out.d.code == Verified && a.queued == [] ==> VerifiedAs(server.store.View(), local.id)
    ensures out.AlreadyStored? ==> server.store.projection.Some? && server.store.projection.value.snap.id == local.id
    ensures puts != [] ==>
              UploadEnds(old(server.store.View()), local, net,
                         DecideRefresh(local, EnvelopeOf(old(server.store.View()), net.legacy), now, c), out)
    ensures puts != [] ==> Arrived(old(server.store.View()), server.store.View(), local, net, a)
    ensures puts == [] ==>
              EndsBefore(local, EnvelopeOf(old(server.store.View()), net.legacy), now, c, net, out)
  {
    ghost var before := server.steps;
    WallServer.StepsKeepWall(before, server.steps);
    var going, ended := Consider(server, local, now, c, net);
    match going {
      case None =>
        return ended, [];
      case Some(d) =>
        out := Upload(server, local, palette, clock, a, net, d);
        puts := [local];
    }
  }
}
