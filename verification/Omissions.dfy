/** Model of NoteComplete and Unseen in internal/ledger/ledger.go: which stored facts
    a complete reread leaves out of later totals, and which ones a scan replays. */
module Omissions {
  import opened Events
  import opened Identity
  import opened LedgerFacts
  import opened Wrappers

  // ---------- a complete reread ----------

  /** Rows that say something about a local session. */
  predicate OfSession(e: UsageEvent) {
    e.derivation != ProviderApi && !e.skipRequest && e.source != "" && e.session != ""
  }

  function Sessions(es: seq<UsageEvent>): set<(string, string)> {
    set e | e in es && OfSession(e) :: (e.source, e.session)
  }

  function Present(es: seq<UsageEvent>): set<string> {
    set e | e in es && OfSession(e) && Key(e).Some? :: Key(e).value
  }

  /** The stored facts of the given sessions that were not emitted. */
  function MissingOf(facts: Facts, sessions: set<(string, string)>, present: set<string>): set<string> {
    set id | id in facts && (facts[id].fact.source, facts[id].fact.session) in sessions && id !in present
  }

  function Missing(facts: Facts, es: seq<UsageEvent>): set<string> {
    MissingOf(facts, Sessions(es), Present(es))
  }

  function NoteComplete(facts: Facts, omissions: set<string>, es: seq<UsageEvent>): set<string> {
    (omissions - Present(es)) + Missing(facts, es)
  }

  // ---------- replaying ----------

  /** Sources whose account totals were emitted: their local facts stay out. */
  function ApiSources(emitted: seq<UsageEvent>): set<string> {
    set e | e in emitted && (e.derivation == ProviderApi || e.derivation == Retained) && e.source != "" :: e.source
  }

  function Seen(emitted: seq<UsageEvent>): set<string> {
    set e | e in emitted && Key(e).Some? :: Key(e).value
  }

  function UnseenIds(facts: Facts, omissions: set<string>, emitted: seq<UsageEvent>): set<string> {
    set id | id in facts && id !in omissions && facts[id].fact.source !in ApiSources(emitted) && id !in Seen(emitted)
  }

  // ---------- the same, said with the rows ----------

  /** The row was read from a local session. */
  predicate LocalRow(e: UsageEvent) {
    !e.derivation.ProviderApi? && !e.skipRequest && |e.source| > 0 && |e.session| > 0
  }

  /** After a complete reread a fact is omitted exactly when no local row has its key, and it was
      omitted before or some local row is of its source and session. */
  lemma OmittedAfter(facts: Facts, omissions: set<string>, es: seq<UsageEvent>, id: string)
    ensures id in NoteComplete(facts, omissions, es) <==>
              && !(exists e :: e in es && LocalRow(e) && Key(e) == Some(id))
              && (id in omissions
                  || (id in facts
                      && exists e :: e in es && LocalRow(e) && e.source == facts[id].fact.source
                           && e.session == facts[id].fact.session))
  {
    hide Key;
    assert forall e :: OfSession(e) <==> LocalRow(e);
    assert id in Present(es) <==> exists e :: e in es && LocalRow(e) && Key(e) == Some(id);
    if id in facts {
      var f := facts[id].fact;
      assert (f.source, f.session) in Sessions(es) <==>
             exists e :: e in es && LocalRow(e) && e.source == f.source && e.session == f.session;
    }
    hide OfSession;
  }

  /** A stored fact is replayed exactly when it is not omitted, no row of the scan has its key, and
      no account or retained row of the scan is of its source. */
  lemma ReplayedIff(facts: Facts, omissions: set<string>, emitted: seq<UsageEvent>, id: string)
    ensures id in UnseenIds(facts, omissions, emitted) <==>
              && id in facts && id !in omissions
              && !(exists e :: e in emitted && Key(e) == Some(id))
              && !(exists e :: e in emitted && e.source != "" && e.source == facts[id].fact.source
                     && (e.derivation.ProviderApi? || e.derivation.Retained?))
  {
    hide Key;
    assert id in Seen(emitted) <==> exists e :: e in emitted && Key(e) == Some(id);
  }

  // ---------- what is true of stored facts ----------

  /** f was filed by some keyed event, however its payload changed since. */
  ghost predicate WellFiled(f: Fact) {
    && f.payload.derivation != ProviderApi && f.payload.derivation != Retained && !f.skip
    && match SplitKey(f.id)
       case Some((source, session, req)) =>
         f.source == source && f.session == session && f.requestKey == req && !HasSlash(req)
         && f.id == Join(source, session, req) && US !in source && US !in session && US !in req
       case None => f.source == "" && f.session == "" && f.requestKey == ""
  }

  ghost predicate AllWellFiled(facts: Facts) {
    forall id :: id in facts ==> facts[id].fact.id == id && WellFiled(facts[id].fact)
  }

  lemma KeyedFactIsWellFiled(e: UsageEvent)
    requires Key(e).Some?
    ensures WellFiled(FactFrom(e, Key(e).value))
  {
    SplitJoin(e.source, e.session, RequestKey(e).value);
  }

  lemma {:induction false} ReducedIsWellFiled(es: seq<UsageEvent>)
    ensures forall id :: id in Reduced(es) ==> Reduced(es)[id].id == id && WellFiled(Reduced(es)[id])
  {
    if es != [] {
      ReducedIsWellFiled(es[..|es| - 1]);
      var last := es[|es| - 1];
      if Key(last).Some? {
        KeyedFactIsWellFiled(last);
      }
    }
  }

  lemma CommitKeepsWellFiled(facts: Facts, es: seq<UsageEvent>)
    requires AllWellFiled(facts)
    ensures AllWellFiled(Committed(facts, es))
  {
    ReducedIsWellFiled(es);
    forall id | id in Committed(facts, es)
      ensures var f := Committed(facts, es)[id].fact; f.id == id && WellFiled(f)
    {
      if id in Reduced(es) && id in facts {
        SameFiling(facts[id].fact, UpsertRow(facts, Reduced(es)[id]).fact);
      }
    }
  }

  lemma SameFiling(f: Fact, g: Fact)
    requires WellFiled(f) && g == f.(payload := g.payload) && g.payload.derivation == f.payload.derivation
    ensures WellFiled(g)
  {
  }

  /** A stored fact has the identity it replays with. */
  predicate Replayable(f: Fact) {
    f.source != "" && !HasSlash(f.session)
  }

  lemma ReplayKey(f: Fact)
    requires WellFiled(f)
    ensures Key(Replay(f)) == Some(f.id) <==> Replayable(f)
  {
    if f.source != "" {
      ReplayedRequest(Replay(f), f.session, f.requestKey);
      SplitJoin(f.source, f.session, f.requestKey);
      JoinIsInjective(f.source, f.session);
    }
  }

  lemma JoinIsInjective(source: string, session: string)
    ensures forall a, b :: Join(source, session, a) == Join(source, session, b) ==> a == b
  {
    forall a, b | Join(source, session, a) == Join(source, session, b)
      ensures a == b
    {
      var n := |source| + 1 + |session| + 1;
      assert Join(source, session, a)[n..] == a && Join(source, session, b)[n..] == b;
    }
  }

  // ---------- replaying twice ----------

  /** The rows of Unseen, in whatever order the table gave them. */
  function Replays(facts: Facts, ids: seq<string>): seq<UsageEvent>
    requires forall id :: id in ids ==> id in facts
  {
    seq(|ids|, i requires 0 <= i < |ids| => Replay(facts[ids[i]].fact))
  }

  lemma ReplaysMembers(facts: Facts, ids: seq<string>, e: UsageEvent)
    requires forall id :: id in ids ==> id in facts
    ensures e in Replays(facts, ids) <==> exists id :: id in ids && e == Replay(facts[id].fact)
  {
    if id :| id in ids && e == Replay(facts[id].fact) {
      var k :| 0 <= k < |ids| && ids[k] == id;
      assert Replays(facts, ids)[k] == e;
    }
  }

  /** When every replayed fact can be read back, committing the replay changes no
      fact, and a scan extended by it has nothing unseen left. */
  lemma ReplayIsNeutral(facts: Facts, omissions: set<string>, emitted: seq<UsageEvent>, ids: seq<string>)
    requires AllWellFiled(facts) && forall id :: id in ids <==> id in UnseenIds(facts, omissions, emitted)
    requires forall id :: id in ids ==> Replayable(facts[id].fact)
    ensures Committed(facts, Replays(facts, ids)) == facts
    ensures UnseenIds(facts, omissions, emitted + Replays(facts, ids)) == {}
  {
    var out := Replays(facts, ids);
    RecommitChangesNothing(facts, ids);
    forall id | id in ids ensures id in Seen(emitted + out) {
      var e := Replay(facts[id].fact);
      ReplaysMembers(facts, ids, e);
      ReplayKey(facts[id].fact);
      assert e in emitted + out;
    }
  }

  lemma RecommitChangesNothing(facts: Facts, ids: seq<string>)
    requires AllWellFiled(facts) && forall id :: id in ids ==> id in facts && Replayable(facts[id].fact)
    ensures Committed(facts, Replays(facts, ids)) == facts
  {
    var out := Replays(facts, ids);
    forall e, id | e in out && CountsFor(e, id)
      ensures id in facts && e.counters == facts[id].fact.payload.counters
    {
      ReplaysMembers(facts, ids, e);
      var i :| i in ids && e == Replay(facts[i].fact);
      ReplayKey(facts[i].fact);
    }
    forall id | id in Committed(facts, out)
      ensures id in facts && Committed(facts, out)[id] == facts[id]
    {
      ReducedIsMaximum(out, id);
      if id in facts {
        CoveredBatch(facts, out, id);
      }
    }
  }

  /** A fact replayed into a scan is taken for unseen again exactly when its key
      cannot be read back. */
  lemma ReplayedOnce(facts: Facts, omissions: set<string>, emitted: seq<UsageEvent>, id: string)
    requires AllWellFiled(facts) && id in UnseenIds(facts, omissions, emitted)
    ensures id !in UnseenIds(facts, omissions, emitted + [Replay(facts[id].fact)]) <==> Replayable(facts[id].fact)
  {
    var e := Replay(facts[id].fact);
    ReplayKey(facts[id].fact);
    assert forall x :: x in emitted + [e] <==> x in emitted || x == e;
    assert e in emitted + [e];
    assert ApiSources(emitted + [e]) == ApiSources(emitted);
  }

  /** A fact of a session with a slash is replayed, and taken for unseen once more. */
  lemma SlashedFactIsReplayedAgain()
    ensures var e := UsageEvent("s", "", "a/b", "r", "", 0, Counters(1, 0, 0, 0, 0), Unset, Local(""), false);
            var facts := Committed(map[], [e]);
            Key(e).Some? && Key(e).value in UnseenIds(facts, {}, [])
            && Key(e).value in UnseenIds(facts, {}, [Replay(facts[Key(e).value].fact)])
  {
    var e := UsageEvent("s", "", "a/b", "r", "", 0, Counters(1, 0, 0, 0, 0), Unset, Local(""), false);
    assert RequestKey(e) == Some("r");
    var id := Key(e).value;
    assert [e][..0] == [];
    var facts := Committed(map[], [e]);
    CommitKeepsWellFiled(map[], [e]);
    SplitJoin("s", "a/b", "r");
    assert facts[id].fact.session == "a/b" && "a/b"[1] == '/';
    assert [] + [Replay(facts[id].fact)] == [Replay(facts[id].fact)];
    ReplayedOnce(facts, {}, [], id);
  }

  // ---------- which facts are omitted, over a run ----------

  datatype Table = Table(facts: Facts, omissions: set<string>)

  /** Rewrite stands for Correct and Revert: they change payload and version only. */
  datatype Step = Commit(events: seq<UsageEvent>) | Reread(events: seq<UsageEvent>)
                | Rewrite(id: string, payload: Payload, version: int)

  function Next(t: Table, s: Step): Table {
    match s
    case Commit(es) => t.(facts := Committed(t.facts, es))
    case Reread(es) => t.(omissions := NoteComplete(t.facts, t.omissions, es))
    case Rewrite(id, payload, version) =>
      if id !in t.facts then t else t.(facts := t.facts[id := Row(t.facts[id].fact.(payload := payload), version)])
  }

  /** The table after the first n steps. */
  function Run(t: Table, steps: seq<Step>, n: nat): Table
    requires n <= |steps|
  {
    if n == 0 then t else Next(Run(t, steps, n - 1), steps[n - 1])
  }

  /** The source and session a key names, as the table stores them. */
  function SessionOf(id: string): (string, string) {
    match SplitKey(id)
    case Some((source, session, _)) => (source, session)
    case None => ("", "")
  }

  /** Step k is a complete reread of the session of id. */
  predicate Rereads(steps: seq<Step>, k: nat, id: string)
    requires k < |steps|
  {
    steps[k].Reread? && SessionOf(id) in Sessions(steps[k].events)
  }

  /** Step k reread the session of a stored id without emitting it. */
  predicate LeavesOut(t: Table, steps: seq<Step>, k: nat, id: string)
    requires k < |steps|
  {
    Rereads(steps, k, id) && id !in Present(steps[k].events) && id in Run(t, steps, k).facts
  }

  /** The last complete reread of its session since it was stored did not emit id. */
  ghost predicate LastRereadLeftOut(t: Table, steps: seq<Step>, n: nat, id: string)
    requires n <= |steps|
  {
    exists k :: 0 <= k < n && LeavesOut(t, steps, k, id) && forall m :: k < m < n ==> !Rereads(steps, m, id)
  }

  /** Identity columns never change and nothing is filed under a provider's rows. */
  ghost predicate Identified(facts: Facts) {
    forall id :: id in facts ==> (facts[id].fact.source, facts[id].fact.session) == SessionOf(id)
  }

  lemma {:induction false} ReducedIsIdentified(es: seq<UsageEvent>)
    ensures forall id :: id in Reduced(es) ==> Reduced(es)[id].id == id
    ensures forall id :: id in Reduced(es) ==> (Reduced(es)[id].source, Reduced(es)[id].session) == SessionOf(id)
  {
    if es != [] {
      ReducedIsIdentified(es[..|es| - 1]);
    }
  }

  lemma NextKeepsIdentified(t: Table, s: Step)
    requires Identified(t.facts)
    ensures Identified(Next(t, s).facts)
    ensures t.omissions <= t.facts.Keys ==> Next(t, s).omissions <= Next(t, s).facts.Keys
  {
    if s.Commit? {
      ReducedIsIdentified(s.events);
      CommitGrows(t.facts, s.events);
    }
  }

  lemma {:induction false} RunKeepsIdentified(t: Table, steps: seq<Step>, n: nat)
    requires Identified(t.facts) && n <= |steps| && t.omissions == {}
    ensures Identified(Run(t, steps, n).facts)
    ensures Run(t, steps, n).omissions <= Run(t, steps, n).facts.Keys
  {
    if n > 0 {
      RunKeepsIdentified(t, steps, n - 1);
      var before := Run(t, steps, n - 1);
      NextKeepsIdentified(before, steps[n - 1]);
      assert Run(t, steps, n) == Next(before, steps[n - 1]);
    }
  }

  /** An emitted key that splits names the session that was reread. */
  lemma PresentIsReread(es: seq<UsageEvent>, id: string)
    requires id in Present(es) && SessionOf(id) != ("", "")
    ensures SessionOf(id) in Sessions(es)
  {
    var e :| e in es && OfSession(e) && Key(e) == Some(id);
    SplitJoin(e.source, e.session, RequestKey(e).value);
  }

  /** Starting with nothing omitted: after any number of steps, an identity is omitted
      exactly when the last complete reread of its session since it was stored did
      not emit it. */
  lemma {:induction false} OmittedExactly(t: Table, steps: seq<Step>, n: nat, id: string)
    requires Identified(t.facts) && t.omissions == {} && n <= |steps|
    ensures id in Run(t, steps, n).omissions <==> LastRereadLeftOut(t, steps, n, id)
  {
    if n > 0 {
      OmittedExactly(t, steps, n - 1, id);
      RunKeepsIdentified(t, steps, n - 1);
      if Rereads(steps, n - 1, id) {
        assert LastRereadLeftOut(t, steps, n, id) <==> LeavesOut(t, steps, n - 1, id);
      } else {
        LastStepElsewhere(t, steps, n, id);
        NotReread(Run(t, steps, n - 1), steps[n - 1], id);
      }
    }
  }

  lemma LastStepElsewhere(t: Table, steps: seq<Step>, n: nat, id: string)
    requires 0 < n <= |steps| && !Rereads(steps, n - 1, id)
    ensures LastRereadLeftOut(t, steps, n, id) <==> LastRereadLeftOut(t, steps, n - 1, id)
    ensures LastRereadLeftOut(t, steps, n, id) ==> SessionOf(id) != ("", "")
  {
    if LastRereadLeftOut(t, steps, n, id) {
      var k :| 0 <= k < n && LeavesOut(t, steps, k, id) && forall m :: k < m < n ==> !Rereads(steps, m, id);
      assert k < n - 1;
    }
  }

  /** A step that does not reread the session of id does not change whether it is omitted. */
  lemma NotReread(t: Table, s: Step, id: string)
    requires Identified(t.facts) && !(s.Reread? && SessionOf(id) in Sessions(s.events))
    requires SessionOf(id) == ("", "") ==> id !in t.omissions
    ensures id in Next(t, s).omissions <==> id in t.omissions
  {
    if s.Reread? && SessionOf(id) != ("", "") {
      if id in Present(s.events) {
        PresentIsReread(s.events, id);
      }
    }
  }
}
