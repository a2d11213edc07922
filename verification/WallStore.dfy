/** Model of internal/hosted/public_profile_store.go: the projection and presentation
    rows of one owner, and each statement that updates them under a condition. */
module WallStore {
  import opened Clock
  import opened PublishPolicy
  import opened Snapshots
  import opened Wrappers

  datatype ReadmeStatus = NoStatus | InFlight | Failed | BlockedAuth | BlockedData | Applied

  /** public_projections. The lease is held while its token is set. */
  datatype Projection = Projection(snap: Snapshot, desired: string, status: ReadmeStatus, reason: Why, due: Option<int>,
                                   retries: int, leaseToken: Option<string>, leaseUntil: Option<int>)

  /** public_presentations: what the README shows, and what was verified of it. */
  datatype Presentation = Presentation(palette: string, readmeId: string, at: Option<int>,
                                       verifiedId: Option<string>, total: Option<int>, asOf: Option<int>)

  datatype Rows = Rows(projection: Option<Projection>, presentation: Option<Presentation>)

  // ---------- the statements ----------

  /** INSERT ... ON DUPLICATE KEY UPDATE: a row that exists keeps its status and lease. */
  function Saving(r: Rows, snap: Snapshot): Rows {
    match r.projection
    case None => r.(projection := Some(Projection(snap, snap.id, NoStatus, NoWhy, None, 0, None, None)))
    case Some(row) => r.(projection := Some(row.(snap := snap, desired := snap.id)))
  }

  function Intending(r: Rows, desired: string, status: ReadmeStatus, reason: Why, due: Option<int>,
                     retries: int): Rows
  {
    if r.projection.None? then r
    else r.(projection := Some(r.projection.value.(desired := desired, status := status, reason := reason, due := due,
                                                   retries := retries)))
  }

  function Applying(r: Rows, id: string): Rows {
    if r.projection.None? || r.projection.value.desired != id then r
    else r.(projection := Some(r.projection.value.(status := Applied, reason := NoWhy, due := None, retries := 0)))
  }

  predicate LeaseFree(r: Rows, token: string, now: int) {
    && r.projection.Some?
    && (r.projection.value.leaseUntil.None? || r.projection.value.leaseUntil.value < now
        || r.projection.value.leaseToken == Some(token))
  }

  function Acquiring(r: Rows, token: string, until: int, now: int): Rows {
    if !LeaseFree(r, token, now) then r
    else r.(projection := Some(r.projection.value.(leaseToken := Some(token), leaseUntil := Some(until))))
  }

  predicate Leased(r: Rows, token: string) {
    r.projection.Some? && r.projection.value.leaseToken == Some(token)
  }

  function Releasing(r: Rows, token: string): Rows {
    if !Leased(r, token) then r
    else r.(projection := Some(r.projection.value.(leaseToken := None, leaseUntil := None)))
  }

  function Presenting(r: Rows, palette: string): Rows {
    match r.presentation
    case None => r.(presentation := Some(Presentation(palette, "", None, None, None, None)))
    case Some(row) => r.(presentation := Some(row.(palette := palette)))
  }

  /** The condition of the verifying UPDATE: nothing verified later than the job began
      (one second is granted to rounding), and the caller still holds the lease. */
  predicate StampLands(r: Rows, id: string, token: string, start: int) {
    && r.presentation.Some? && Leased(r, token)
    && (var row := r.presentation.value;
        row.readmeId == "" || row.readmeId == id || (row.at.Some? && row.at.value <= start + SECOND))
  }

  function Stamping(r: Rows, snap: Snapshot, token: string, start: int, now: int): Rows {
    if !StampLands(r, snap.id, token, start) then r
    else r.(presentation := Some(r.presentation.value.(readmeId := snap.id, at := Some(now),
                                                       verifiedId := Some(snap.id),
                                                       total := snap.total, asOf := snap.asOf)))
  }

  predicate VerifiedAs(r: Rows, id: string) {
    r.presentation.Some? && r.presentation.value.readmeId == id && r.presentation.value.verifiedId == Some(id)
  }

  /** What the owner still waits for, and may be tried now. */
  predicate Due(r: Rows, now: int) {
    && r.projection.Some?
    && var row := r.projection.value;
       && ((row.desired != "" && row.desired != (if r.presentation.Some? then r.presentation.value.readmeId else "")
            && row.status in {Failed, InFlight, BlockedAuth})
           || (row.status == Failed && row.reason.ThemeOf?))
       && (row.due.None? || row.due.value <= now)
       && (row.leaseUntil.None? || row.leaseUntil.value < now)
  }

  /** backfillVerifiedIdentity: only while the applied README is the accepted snapshot. */
  function Backfilling(r: Rows): Rows {
    if r.projection.None? || r.presentation.None? then r
    else
      var snap, row := r.projection.value.snap, r.presentation.value;
      if row.readmeId == "" || row.readmeId != snap.id || row.verifiedId.Some? || row.total.Some? || row.asOf.Some?
         || snap.total.None? || snap.asOf.None? then r
      else r.(presentation := Some(row.(verifiedId := Some(snap.id), total := snap.total, asOf := snap.asOf)))
  }

  // ---------- what the rows say ----------

  /** verifiedWall: a total counts only when it was verified for the shown snapshot. */
  function VerifiedWall(r: Rows): Option<Wall> {
    if r.presentation.None? || r.presentation.value.readmeId == "" then None
    else
      var row := r.presentation.value;
      Some(if row.verifiedId == Some(row.readmeId) then Wall(row.readmeId, row.total, row.asOf)
           else Wall(row.readmeId, None, None))
  }

  function WallTotal(r: Rows): Option<int> {
    if VerifiedWall(r).None? then None else VerifiedWall(r).value.total
  }

  function StoredTotal(r: Rows): Option<int> {
    if r.projection.None? then None else r.projection.value.snap.total
  }

  /** The wall is what the README shows; its total and day count only when they were verified for
      that very snapshot. */
  lemma WallShows(r: Rows)
    ensures VerifiedWall(r).Some? <==> r.presentation.Some? && r.presentation.value.readmeId != ""
    ensures VerifiedWall(r).Some? ==>
              var wall, row := VerifiedWall(r).value, r.presentation.value;
              && wall.id == row.readmeId
              && (row.verifiedId == Some(row.readmeId) ==> wall.total == row.total && wall.asOf == row.asOf)
              && (row.verifiedId != Some(row.readmeId) ==> wall.total.None? && wall.asOf.None?)
  {
  }

  /** When something may be tried: it is wanted and not shown, and pending, failed or blocked, or it is
      a theme that failed; its wait is over, and no lease is held. */
  lemma DueIff(r: Rows, now: int)
    ensures Due(r, now) <==>
              && r.projection.Some?
              && var row := r.projection.value;
                 var shown := if r.presentation.Some? then r.presentation.value.readmeId else "";
                 && (|| (row.status == Failed && row.reason.ThemeOf?)
                     || (row.desired != "" && row.desired != shown
                         && (row.status == InFlight || row.status == Failed || row.status == BlockedAuth)))
                 && (row.due.Some? ==> now >= row.due.value) && (row.leaseUntil.Some? ==> now > row.leaseUntil.value)
  {
  }

  // ---------- the program ----------

  class Store {
    var projection: Option<Projection>
    var presentation: Option<Presentation>

    function View(): Rows
      reads this
    {
      Rows(projection, presentation)
    }

    constructor ()
      ensures View() == Rows(None, None)
    {
      projection, presentation := None, None;
    }

    method SaveProjection(snap: Snapshot)
      modifies this`projection
      ensures View() == Saving(old(View()), snap)
      ensures projection.Some? && projection.value.snap == snap && projection.value.desired == snap.id
      ensures var was := old(projection);
              if was.Some? then projection == Some(was.value.(snap := snap, desired := snap.id))
              else projection == Some(Projection(snap, snap.id, NoStatus, NoWhy, None, 0, None, None))
    {
      if projection.None? {
        projection := Some(Projection(snap, snap.id, NoStatus, NoWhy, None, 0, None, None));
      } else {
        projection := Some(projection.value.(snap := snap, desired := snap.id));
      }
    }

    method SetPublicationIntent(desired: string, status: ReadmeStatus, reason: Why, due: Option<int>, retries: int)
      modifies this`projection
      ensures View() == Intending(old(View()), desired, status, reason, due, retries)
      ensures StoredTotal(View()) == StoredTotal(old(View())) && (projection.Some? <==> old(projection).Some?)
      ensures forall token :: Leased(View(), token) <==> Leased(old(View()), token)
      ensures old(projection).Some? ==>
                var was, row := old(projection).value, projection.value;
                && row.snap == was.snap && row.leaseToken == was.leaseToken && row.leaseUntil == was.leaseUntil
                && row.desired == desired && row.status == status && row.reason == reason && row.due == due
                && row.retries == retries
    {
      if projection.Some? {
        projection := Some(projection.value.(desired := desired, status := status, reason := reason, due := due,
                                             retries := retries));
      }
    }

    method SetReadmeApplied(id: string)
      modifies this`projection
      ensures View() == Applying(old(View()), id)
      ensures projection.Some? ==> projection.value.desired == old(projection).value.desired
                                   && projection.value.snap == old(projection).value.snap
      ensures forall token :: Leased(View(), token) <==> Leased(old(View()), token)
      ensures projection.Some? && projection.value.desired == id ==>
                var row := projection.value;
                row.status == Applied && row.reason == NoWhy && row.due.None? && row.retries == 0
      ensures projection.None? || projection.value.desired != id ==> projection == old(projection)
    {
      if projection.Some? && projection.value.desired == id {
        projection := Some(projection.value.(status := Applied, reason := NoWhy, due := None, retries := 0));
      }
    }

    /** At most one token holds an unexpired lease. */
    method AcquirePublishLease(token: string, until: int, now: int) returns (held: bool)
      modifies this`projection
      ensures View() == Acquiring(old(View()), token, until, now)
      ensures held == LeaseFree(old(View()), token, now) && (held ==> Leased(View(), token))
      ensures held <==> var was := old(projection);
                was.Some? && (was.value.leaseUntil.None? || was.value.leaseUntil.value < now
                              || was.value.leaseToken == Some(token))
      ensures var was := old(projection);
              projection == if held then Some(was.value.(leaseToken := Some(token), leaseUntil := Some(until))) else was
    {
      held := false;
      if projection.Some? {
        var row := projection.value;
        if row.leaseUntil.None? || row.leaseUntil.value < now || row.leaseToken == Some(token) {
          projection := Some(row.(leaseToken := Some(token), leaseUntil := Some(until)));
          held := true;
        }
      }
    }

    method ReleasePublishLease(token: string)
      modifies this`projection
      ensures View() == Releasing(old(View()), token) && !Leased(View(), token)
      ensures var was := old(projection);
              projection == if was.Some? && was.value.leaseToken == Some(token)
                            then Some(was.value.(leaseToken := None, leaseUntil := None)) else was
    {
      if projection.Some? && projection.value.leaseToken == Some(token) {
        projection := Some(projection.value.(leaseToken := None, leaseUntil := None));
      }
    }

    method SavePresentation(palette: string)
      modifies this`presentation
      ensures View() == Presenting(old(View()), palette)
      ensures presentation.Some? && presentation.value.palette == palette
              && VerifiedWall(View()) == VerifiedWall(old(View()))
    {
      if presentation.None? {
        presentation := Some(Presentation(palette, "", None, None, None, None));
      } else {
        presentation := Some(presentation.value.(palette := palette));
      }
    }

    /** ok exactly when the wall is now verified as this snapshot; otherwise nothing moved. */
    method MarkReadmeVerified(snap: Snapshot, token: string, start: int, now: int) returns (ok: bool)
      modifies this`presentation
      ensures View() == Stamping(old(View()), snap, token, start, now)
      ensures ok == VerifiedAs(View(), snap.id)
      ensures !ok ==> View() == old(View())
      ensures var row, lease := old(presentation), old(projection);
              if row.Some? && lease.Some? && lease.value.leaseToken == Some(token)
                 && (row.value.readmeId == "" || row.value.readmeId == snap.id
                     || (row.value.at.Some? && row.value.at.value <= start + 1_000_000_000)) then
                presentation == Some(Presentation(row.value.palette, snap.id, Some(now), Some(snap.id), snap.total,
                                                  snap.asOf))
              else presentation == row
    {
      if presentation.Some? {
        var row := presentation.value;
        if (row.readmeId == "" || row.readmeId == snap.id || (row.at.Some? && row.at.value <= start + SECOND))
           && projection.Some? && projection.value.leaseToken == Some(token) {
          presentation := Some(row.(readmeId := snap.id, at := Some(now), verifiedId := Some(snap.id),
                                    total := snap.total, asOf := snap.asOf));
          return true;
        }
      }
      return presentation.Some? && presentation.value.readmeId == snap.id
        && presentation.value.verifiedId == Some(snap.id);
    }

    /** What the wall shows stays; at most its unknown total becomes the accepted one. */
    method Backfill()
      modifies this`presentation
      ensures View() == Backfilling(old(View()))
      ensures VerifiedWall(View()) == VerifiedWall(old(View()))
              || (WallTotal(old(View())).None? && WallTotal(View()) == StoredTotal(View())
                  && VerifiedAs(View(), projection.value.snap.id))
      ensures var was := old(presentation);
              if was.Some? && projection.Some? && was.value.readmeId != ""
                 && was.value.readmeId == projection.value.snap.id && was.value.verifiedId.None?
                 && was.value.total.None? && was.value.asOf.None? && projection.value.snap.total.Some?
                 && projection.value.snap.asOf.Some?
              then VerifiedAs(View(), was.value.readmeId) && presentation.value.total == projection.value.snap.total
                   && presentation.value.asOf == projection.value.snap.asOf
                   && presentation.value.at == was.value.at && presentation.value.palette == was.value.palette
              else presentation == was
    {
      if projection.None? || presentation.None? {
        return;
      }
      var snap, row := projection.value.snap, presentation.value;
      if row.readmeId == "" || row.readmeId != snap.id || row.verifiedId.Some? || row.total.Some? || row.asOf.Some? {
        return;
      }
      if snap.total.None? || snap.asOf.None? {
        return;
      }
      presentation := Some(row.(verifiedId := Some(snap.id), total := snap.total, asOf := snap.asOf));
    }
  }
}
