/** The durable ledger of internal/ledger/ledger.go as an object: its methods change the
    tables inside one transaction each, proved against the functions of LedgerFacts,
    Corrections and Omissions. */
module LedgerDb {
  import opened Events
  import opened Identity
  import opened Int64
  import opened LedgerFacts
  import opened Wrappers
  import C = Corrections
  import O = Omissions

  /** reduce: one fact per identity, the number of rows without one. */
  method Reduce(es: seq<UsageEvent>) returns (out: map<string, Fact>, unkeyed: nat)
    ensures out == Reduced(es)
    ensures unkeyed == |Unkeyed(es)|
    ensures unkeyed == |Gaps(es)|
  {
    out, unkeyed := map[], 0;
    for i := 0 to |es|
      invariant out == Reduced(es[..i]) && unkeyed == |Unkeyed(es[..i])|
    {
      var e := es[i];
      assert es[..i + 1][..i] == es[..i];
      if e.counters == NO_TOKENS {
        continue;
      }
      var key := Key(e);
      if key == None {
        unkeyed := unkeyed + 1;
        continue;
      }
      var f := FactFrom(e, key.value);
      if key.value in out {
        f := MaxFact(out[key.value], f);
      }
      out := out[key.value := f];
    }
    assert es[..|es|] == es;
    UnkeyedAre(es);
  }

  /** The rows of a batch that carry tokens but no durable identity. */
  function Unkeyed(es: seq<UsageEvent>): seq<UsageEvent> {
    if es == [] then []
    else
      var last := es[|es| - 1];
      Unkeyed(es[..|es| - 1]) + if last.counters != NO_TOKENS && Key(last) == None then [last] else []
  }

  /** The places of the rows with tokens and without a key. */
  ghost function Gaps(es: seq<UsageEvent>): set<int> {
    set i | 0 <= i < |es| && es[i].counters != NO_TOKENS && Key(es[i]).None?
  }

  lemma {:induction false} UnkeyedAre(es: seq<UsageEvent>)
    ensures |Unkeyed(es)| == |Gaps(es)|
  {
    if es != [] {
      hide Key;
      var n := |es| - 1;
      var init := es[..n];
      UnkeyedAre(init);
      forall i
        ensures i in Gaps(es) <==> i in Gaps(init) || (i == n && es[n].counters != NO_TOKENS && Key(es[n]).None?)
      {
        assert 0 <= i < n ==> init[i] == es[i];
      }
      assert Gaps(es) == Gaps(init) + if es[n].counters != NO_TOKENS && Key(es[n]).None? then {n} else {};
    }
  }

  /** What every method keeps: rows filed under their own keys, sound revisions and permit. */
  ghost predicate Sound(b: C.Books) {
    && O.AllWellFiled(b.facts) && C.Valid(b)
    && forall k {:trigger b.revisions[k]} :: 0 <= k < |b.revisions| ==>
         b.revisions[k].prev.derivation != ProviderApi && b.revisions[k].prev.derivation != Retained
  }

  lemma CorrectKeepsSound(b: C.Books, e: UsageEvent, reason: string, version: int)
    requires Sound(b)
    ensures Sound(C.Correct(b, e, reason, version).0)
    ensures var (after, outcome) := C.Correct(b, e, reason, version);
            outcome == C.Applied ==>
              var n, o := e.counters, b.facts[Key(e).value].fact.payload.counters;
              var change := Wrap((n.miss + n.cacheRead + n.cacheCreate + n.output)
                                 - (o.miss + o.cacheRead + o.cacheCreate + o.output));
              C.Amount(after.permit) == Int64.Max(0, C.Amount(b.permit) - change)
  {
    C.CorrectKeepsValid(b, e, reason, version);
    if C.Correct(b, e, reason, version).1 == C.Applied {
      C.CorrectMovesPermit(b, e, reason, version);
    }
    hide C.AdjustPermit;
    hide C.TokenDelta;
    hide C.CleanReason;
    hide C.Valid;
    hide Wrap;
  }

  lemma RevertKeepsSound(b: C.Books, id: string, reason: string)
    requires Sound(b)
    ensures Sound(C.Revert(b, id, reason).0)
    ensures var (after, outcome) := C.Revert(b, id, reason);
            outcome == C.Applied ==>
              var n, o := after.facts[id].fact.payload.counters, b.facts[id].fact.payload.counters;
              var change := Wrap((n.miss + n.cacheRead + n.cacheCreate + n.output)
                                 - (o.miss + o.cacheRead + o.cacheCreate + o.output));
              C.Amount(after.permit) == if b.permit.Some? then Int64.Max(0, C.Amount(b.permit) - change) else 0
  {
    hide C.AdjustPermit;
    hide C.TokenDelta;
    hide C.CleanReason;
    hide C.RevertReason;
    hide Wrap;
    C.RevertKeepsValid(b, id, reason);
    if C.Revert(b, id, reason).1 == C.Applied {
      C.RevertMovesPermit(b, id, reason);
    }
    hide C.Valid;
  }

  lemma CommitKeepsSound(b: C.Books, es: seq<UsageEvent>)
    requires Sound(b)
    ensures Sound(b.(facts := Committed(b.facts, es)))
  {
    O.CommitKeepsWellFiled(b.facts, es);
    CommitGrows(b.facts, es);
  }

  lemma ReducedIsFiled(es: seq<UsageEvent>)
    ensures forall id :: id in Reduced(es) ==> Reduced(es)[id].id == id
  {
    O.ReducedIsWellFiled(es);
  }

  datatype Import = Import(gaps: nat, unkeyed: nat)

  /** ids are the wanted ones among the rows already seen, each once. */
  ghost predicate Collected(ids: seq<string>, wanted: set<string>, rows: set<string>) {
    && (forall i, j :: 0 <= i < j < |ids| ==> ids[i] != ids[j])
    && forall id :: id in ids <==> id in wanted && id !in rows
  }

  /** out are the replays of ids. */
  ghost predicate ReplayedAs(facts: Facts, ids: seq<string>, out: seq<UsageEvent>) {
    |out| == |ids| && forall i :: 0 <= i < |ids| ==> ids[i] in facts && out[i] == Replay(facts[ids[i]].fact)
  }

  lemma ReplayOne(facts: Facts, ids: seq<string>, out: seq<UsageEvent>, id: string)
    requires ReplayedAs(facts, ids, out) && id in facts
    ensures ReplayedAs(facts, ids + [id], out + [Replay(facts[id].fact)])
  {
  }

  lemma CollectOne(ids: seq<string>, wanted: set<string>, rows: set<string>, id: string)
    requires Collected(ids, wanted, rows) && id in rows
    ensures Collected(if id in wanted then ids + [id] else ids, wanted, rows - {id})
  {
    assert id !in ids;
  }

  class Ledger {
    var facts: Facts
    var revisions: seq<C.Revision>
    var permit: Option<C.Permit>
    var omissions: set<string>
    var imported: Option<Import>

    ghost predicate Valid()
      reads this
    {
      Sound(Books())
    }

    ghost function Books(): C.Books
      reads this
    {
      C.Books(facts, revisions, permit)
    }

    constructor ()
      ensures Valid() && facts == map[] && revisions == [] && permit == None && omissions == {} && imported == None
    {
      facts, revisions, permit, omissions, imported := map[], [], None, {}, None;
    }

    /** Upserts the reduced facts, in whatever order the map yields them. */
    method UpsertAll(reduced: map<string, Fact>) returns (tx: Facts)
      requires forall id :: id in reduced ==> reduced[id].id == id
      ensures tx == Merged(facts, reduced)
    {
      tx := facts;
      var pending := reduced.Keys;
      while pending != {}
        invariant pending <= reduced.Keys
        invariant tx.Keys == facts.Keys + (reduced.Keys - pending)
        invariant forall id :: id in tx ==>
                  tx[id] == if id in reduced && id !in pending then UpsertRow(facts, reduced[id]) else facts[id]
      {
        var id :| id in pending;
        pending := pending - {id};
        tx := Upsert(tx, reduced[id]);
      }
    }

    /** stored is false when the transaction did not commit: then nothing changed. */
    method CommitUsage(es: seq<UsageEvent>, commits: bool) returns (stored: bool)
      requires Valid()
      modifies this`facts
      ensures Valid()
      ensures facts == if stored then Committed(old(facts), es) else old(facts)
      ensures stored == (commits || Reduced(es) == map[])
    {
      var reduced, _ := Reduce(es);
      if reduced == map[] {
        return true;
      }
      CommitKeepsSound(Books(), es);
      ReducedIsFiled(es);
      var tx := UpsertAll(reduced);
      if commits {
        facts := tx;
      }
      return commits;
    }

    /** The one-time copy of cached events. */
    method ImportOnce(es: seq<UsageEvent>, gaps: nat, commits: bool) returns (stored: bool)
      requires Valid()
      modifies this`facts, this`imported
      ensures Valid()
      ensures old(imported).Some? ==> stored && facts == old(facts) && imported == old(imported)
      ensures old(imported).None? ==> stored == commits
      ensures old(imported).None? && stored ==>
              facts == Committed(old(facts), es) && imported == Some(Import(gaps, |Unkeyed(es)|))
      ensures !stored ==> facts == old(facts) && imported == old(imported)
    {
      if imported.Some? {
        return true;
      }
      var reduced, unkeyed := Reduce(es);
      ReducedIsFiled(es);
      var tx := UpsertAll(reduced);
      CommitKeepsSound(Books(), es);
      if commits {
        facts := tx;
        imported := Some(Import(gaps, unkeyed));
      }
      return commits;
    }

    method NoteComplete(es: seq<UsageEvent>, commits: bool) returns (stored: bool)
      requires Valid()
      modifies this`omissions
      ensures Valid()
      ensures omissions == if stored then O.NoteComplete(facts, old(omissions), es) else old(omissions)
      ensures stored == (commits || O.Sessions(es) == {})
    {
      var present, sessions := Reread(es);
      if |sessions| == 0 && |present| == 0 {
        assert O.NoteComplete(facts, omissions, es) == omissions;
        return true;
      }
      var missing := MissingFacts(sessions, present);
      if commits {
        omissions := (omissions - present) + missing;
      }
      return commits;
    }

    /** One query per session, in whatever order the map yields them. */
    method MissingFacts(sessions: set<(string, string)>, present: set<string>) returns (missing: set<string>)
      ensures missing == O.MissingOf(facts, sessions, present)
    {
      missing := {};
      var left := sessions;
      while left != {}
        invariant left <= sessions
        invariant missing == O.MissingOf(facts, sessions - left, present)
      {
        var s :| s in left;
        assert sessions - (left - {s}) == sessions - left + {s};
        left := left - {s};
        missing := missing + O.MissingOf(facts, {s}, present);
      }
      assert sessions - left == sessions;
    }

    /** The stored facts that the scan did not emit, replayed as events. */
    method Unseen(emitted: seq<UsageEvent>) returns (out: seq<UsageEvent>, ids: seq<string>)
      requires Valid()
      ensures forall id :: id in ids <==> id in O.UnseenIds(facts, omissions, emitted)
      ensures forall i, j :: 0 <= i < j < |ids| ==> ids[i] != ids[j]
      ensures out == O.Replays(facts, ids)
    {
      var seen, api := Emitted(emitted);
      ghost var wanted := O.UnseenIds(facts, omissions, emitted);
      out, ids := [], [];
      var rows := facts.Keys;
      while rows != {}
        invariant rows <= facts.Keys && wanted <= facts.Keys
        invariant Collected(ids, wanted, rows)
        invariant ReplayedAs(facts, ids, out)
      {
        var id :| id in rows;
        CollectOne(ids, wanted, rows, id);
        rows := rows - {id};
        if id in omissions || facts[id].fact.source in api || id in seen {
          continue;
        }
        ReplayOne(facts, ids, out, id);
        out, ids := out + [Replay(facts[id].fact)], ids + [id];
      }
    }

    method Revert(id: string, reason: string) returns (outcome: C.Outcome)
      requires Valid()
      modifies this`facts, this`revisions, this`permit
      ensures Valid()
      ensures (Books(), outcome) == C.Revert(old(Books()), id, reason)
      ensures outcome == C.Applied ==>
                var n, o := facts[id].fact.payload.counters, old(facts)[id].fact.payload.counters;
                var change := Wrap((n.miss + n.cacheRead + n.cacheCreate + n.output)
                                   - (o.miss + o.cacheRead + o.cacheCreate + o.output));
                C.Amount(permit) == if old(permit).Some? then Int64.Max(0, C.Amount(old(permit)) - change) else 0
    {
      hide C.Trim;
      hide C.LatestCorrection;
      hide C.Amount;
      RevertKeepsSound(Books(), id, reason);
      hide C.AdjustPermit;
      hide C.TokenDelta;
      hide C.CleanReason;
      hide C.RevertReason;
      hide Wrap;
      hide Sound;
      var clean := C.CleanReason(reason);
      if clean == None || id !in facts {
        return C.Rejected;
      }
      var cur := facts[id];
      var at := C.LatestCorrection(revisions, id);
      if at < 0 {
        return C.Rejected;
      }
      var rev := revisions[at];
      if cur.fact.payload != rev.next || cur.version != rev.nextVersion {
        return C.NoOp;
      }
      var adjusted := C.AdjustPermit(permit, "", C.TokenDelta(rev.prev, cur.fact.payload));
      if adjusted == None {
        return C.Rejected;
      }
      revisions := revisions
        + [C.Revision(id, C.RevertReason(clean.value), cur.version, rev.prevVersion, cur.fact.payload, rev.prev)];
      facts := C.WriteFact(facts, id, rev.prev, rev.prevVersion);
      permit := adjusted.value;
      return C.Applied;
    }

    /** Publishing used the permit up; the revisions stay. */
    method ClearCorrectionPermit()
      requires Valid()
      modifies this`permit
      ensures Valid() && permit == None
    {
      permit := None;
    }

    method Correct(e: UsageEvent, reason: string, version: int) returns (outcome: C.Outcome)
      requires Valid()
      modifies this`facts, this`revisions, this`permit
      ensures Valid()
      ensures (Books(), outcome) == C.Correct(old(Books()), e, reason, version)
      ensures outcome == C.Applied ==>
                var n, o := e.counters, old(facts)[Key(e).value].fact.payload.counters;
                var change := Wrap((n.miss + n.cacheRead + n.cacheCreate + n.output)
                                   - (o.miss + o.cacheRead + o.cacheCreate + o.output));
                C.Amount(permit) == Int64.Max(0, C.Amount(old(permit)) - change)
    {
      CorrectKeepsSound(Books(), e, reason, version);
      hide C.AdjustPermit;
      hide C.TokenDelta;
      hide C.CleanReason;
      hide Key;
      hide FactFrom;
      hide Wrap;
      hide Sound;
      var clean := C.CleanReason(reason);
      if clean == None || Key(e) == None {
        return C.Rejected;
      }
      var id := Key(e).value;
      var next := FactFrom(e, id);
      if id !in facts {
        return C.Rejected;
      }
      var cur := facts[id];
      if next.payload == cur.fact.payload {
        return C.NoOp;
      }
      if version <= cur.version {
        return C.Rejected;
      }
      var adjusted := C.AdjustPermit(permit, clean.value, C.TokenDelta(next.payload, cur.fact.payload));
      if adjusted == None {
        return C.Rejected;
      }
      revisions := revisions + [C.Revision(id, clean.value, cur.version, version, cur.fact.payload, next.payload)];
      facts := C.WriteFact(facts, id, next.payload, version);
      permit := adjusted.value;
      return C.Applied;
    }
  }

  /** The sessions a reread covers and the keys it emitted. */
  method Reread(es: seq<UsageEvent>) returns (present: set<string>, sessions: set<(string, string)>)
    ensures present == O.Present(es) && sessions == O.Sessions(es)
    ensures sessions == {} ==> present == {}
  {
    present, sessions := {}, {};
    for i := 0 to |es|
      invariant present == O.Present(es[..i]) && sessions == O.Sessions(es[..i])
      invariant sessions == {} ==> present == {}
    {
      var e := es[i];
      assert es[..i + 1] == es[..i] + [e];
      if !O.OfSession(e) {
        continue;
      }
      sessions := sessions + {(e.source, e.session)};
      if Key(e).Some? {
        present := present + {Key(e).value};
      }
    }
    assert es[..|es|] == es;
  }

  /** The keys and the account sources of a scan. */
  method Emitted(emitted: seq<UsageEvent>) returns (seen: set<string>, api: set<string>)
    ensures seen == O.Seen(emitted) && api == O.ApiSources(emitted)
  {
    seen, api := {}, {};
    for i := 0 to |emitted|
      invariant seen == O.Seen(emitted[..i]) && api == O.ApiSources(emitted[..i])
    {
      var e := emitted[i];
      assert emitted[..i + 1] == emitted[..i] + [e];
      if (e.derivation == ProviderApi || e.derivation == Retained) && e.source != "" {
        api := api + {e.source};
      }
      if Key(e).Some? {
        seen := seen + {Key(e).value};
      }
    }
    assert emitted[..|emitted|] == emitted;
  }
}
