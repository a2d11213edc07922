/** Model of the fact table of internal/ledger/ledger.go: how a batch of events is
    reduced per identity and merged into the stored facts, and what every commit keeps. */
module LedgerFacts {
  import opened Events
  import opened Identity
  import opened Int64
  import opened Wrappers

  const PARSER_VERSION: int := 1

  /** One row of the facts table. */
  datatype Row = Row(fact: Fact, version: int)

  type Facts = map<string, Row>

  predicate Leq(a: Counters, b: Counters) {
    a.miss <= b.miss && a.cacheRead <= b.cacheRead && a.cacheCreate <= b.cacheCreate && a.output <= b.output
    && a.reasoning <= b.reasoning
  }

  /** next covers every component of cur and exceeds at least one. */
  predicate Superset(next: Counters, cur: Counters) {
    Leq(cur, next) && cur != next
  }

  function MaxFact(a: Fact, b: Fact): Fact {
    a.(payload := a.payload.(counters := MaxCounters(a.payload.counters, b.payload.counters),
                             ts := Max(a.payload.ts, b.payload.ts)))
  }

  // ---------- reducing a batch ----------

  function AddEvent(out: map<string, Fact>, e: UsageEvent): map<string, Fact> {
    if e.counters == NO_TOKENS || Key(e).None? then out
    else
      var id := Key(e).value;
      var f := FactFrom(e, id);
      out[id := if id in out then MaxFact(out[id], f) else f]
  }

  function Reduced(es: seq<UsageEvent>): map<string, Fact> {
    if es == [] then map[] else AddEvent(Reduced(es[..|es| - 1]), es[|es| - 1])
  }

  /** e adds tokens to the identity id. */
  predicate CountsFor(e: UsageEvent, id: string) {
    e.counters != NO_TOKENS && Key(e) == Some(id)
  }

  ghost predicate Bounds(es: seq<UsageEvent>, id: string, m: Counters) {
    forall e :: e in es && CountsFor(e, id) ==> Leq(e.counters, m)
  }

  /** Some event of id has exactly v in component k. */
  ghost predicate Attained(es: seq<UsageEvent>, id: string, k: nat, v: int)
    requires k < 5
  {
    exists e :: e in es && CountsFor(e, id) && Part(e.counters, k) == v
  }

  /** m is, component by component, the least upper bound of the events of id. */
  ghost predicate IsMaximum(es: seq<UsageEvent>, id: string, m: Counters) {
    Bounds(es, id, m) && forall k :: 0 <= k < 5 ==> Attained(es, id, k, Part(m, k))
  }

  lemma LeqByParts(a: Counters, b: Counters)
    requires forall k :: 0 <= k < 5 ==> Part(a, k) <= Part(b, k)
    ensures Leq(a, b)
  {
    assert Part(a, 0) <= Part(b, 0) && Part(a, 1) <= Part(b, 1) && Part(a, 2) <= Part(b, 2)
        && Part(a, 3) <= Part(b, 3) && Part(a, 4) <= Part(b, 4);
  }

  lemma MaximumIsLeast(es: seq<UsageEvent>, id: string, m: Counters, bound: Counters)
    requires IsMaximum(es, id, m) && Bounds(es, id, bound)
    ensures Leq(m, bound)
  {
    forall k | 0 <= k < 5 ensures Part(m, k) <= Part(bound, k) {
      assert Attained(es, id, k, Part(m, k));
      var e :| e in es && CountsFor(e, id) && Part(e.counters, k) == Part(m, k);
      assert Leq(e.counters, bound);
    }
    LeqByParts(m, bound);
  }

  lemma MaximumIsUnique(es: seq<UsageEvent>, id: string, m: Counters, n: Counters)
    requires IsMaximum(es, id, m) && IsMaximum(es, id, n)
    ensures m == n
  {
    MaximumIsLeast(es, id, m, n);
    MaximumIsLeast(es, id, n, m);
  }

  lemma AttainedGrows(es: seq<UsageEvent>, e: UsageEvent, id: string, k: nat, v: int)
    requires k < 5
    ensures Attained(es, id, k, v) ==> Attained(es + [e], id, k, v)
    ensures CountsFor(e, id) ==> Attained(es + [e], id, k, Part(e.counters, k))
  {
    assert e in es + [e] && forall x :: x in es ==> x in es + [e];
  }

  lemma BoundsGrow(es: seq<UsageEvent>, e: UsageEvent, id: string, m: Counters, n: Counters)
    requires Bounds(es, id, m) && Leq(m, n) && (CountsFor(e, id) ==> Leq(e.counters, n))
    ensures Bounds(es + [e], id, n)
  {
    assert forall x :: x in es + [e] ==> x in es || x == e;
  }

  lemma PartOfMax(a: Counters, b: Counters, k: nat)
    ensures Part(MaxCounters(a, b), k) == Max(Part(a, k), Part(b, k))
  {
  }

  lemma PartStaysAttained(es: seq<UsageEvent>, e: UsageEvent, id: string, m: Counters, k: nat)
    requires k < 5 && Attained(es, id, k, Part(m, k))
    ensures Attained(es + [e], id, k, Part(if CountsFor(e, id) then MaxCounters(m, e.counters) else m, k))
  {
    AttainedGrows(es, e, id, k, Part(m, k));
    PartOfMax(m, e.counters, k);
  }

  lemma MaximumGrows(es: seq<UsageEvent>, e: UsageEvent, id: string, m: Counters)
    requires IsMaximum(es, id, m)
    ensures IsMaximum(es + [e], id, if CountsFor(e, id) then MaxCounters(m, e.counters) else m)
  {
    var n := if CountsFor(e, id) then MaxCounters(m, e.counters) else m;
    BoundsGrow(es, e, id, m, n);
    forall k | 0 <= k < 5 ensures Attained(es + [e], id, k, Part(n, k)) {
      assert Attained(es, id, k, Part(m, k));
      PartStaysAttained(es, e, id, m, k);
    }
  }

  lemma FirstMaximum(es: seq<UsageEvent>, e: UsageEvent, id: string)
    requires CountsFor(e, id) && forall x :: x in es ==> !CountsFor(x, id)
    ensures IsMaximum(es + [e], id, e.counters)
  {
    forall k | 0 <= k < 5 ensures Attained(es + [e], id, k, Part(e.counters, k)) {
      AttainedGrows(es, e, id, k, 0);
    }
  }

  /** id has tokens in es. */
  ghost predicate Occurs(es: seq<UsageEvent>, id: string) {
    exists e :: e in es && CountsFor(e, id)
  }

  lemma OccursSnoc(es: seq<UsageEvent>, e: UsageEvent, id: string)
    ensures Occurs(es + [e], id) <==> Occurs(es, id) || CountsFor(e, id)
  {
    assert e in es + [e] && forall x :: x in es + [e] <==> x in es || x == e;
  }

  /** Reducing a batch keeps one fact per identity, holding the maximum. */
  lemma {:induction false} ReducedIsMaximum(es: seq<UsageEvent>, id: string)
    ensures id in Reduced(es) <==> Occurs(es, id)
    ensures id in Reduced(es) ==> Reduced(es)[id].id == id && IsMaximum(es, id, Reduced(es)[id].payload.counters)
  {
    if es != [] {
      var init, last := es[..|es| - 1], es[|es| - 1];
      assert es == init + [last];
      ReducedIsMaximum(init, id);
      OccursSnoc(init, last, id);
      if id in Reduced(init) {
        MaximumGrows(init, last, id, Reduced(init)[id].payload.counters);
      } else if CountsFor(last, id) {
        FirstMaximum(init, last, id);
      }
    }
  }

  /** Everything but counters and time is what the first row of an identity says. */
  lemma {:induction false} ReducedKeepsFirst(es: seq<UsageEvent>, id: string) returns (i: nat)
    requires id in Reduced(es)
    ensures i < |es| && CountsFor(es[i], id) && forall j :: 0 <= j < i ==> !CountsFor(es[j], id)
    ensures var f := Reduced(es)[id];
            && f.payload == PayloadOf(es[i]).(counters := f.payload.counters, ts := f.payload.ts)
            && f == FactFrom(es[i], id).(payload := f.payload)
  {
    var n := |es| - 1;
    var init, last := es[..n], es[n];
    assert FactFrom(last, id).payload == PayloadOf(last);
    hide FactFrom;
    hide Key;
    hide PayloadOf;
    hide MaxCounters;
    if id in Reduced(init) {
      i := ReducedKeepsFirst(init, id);
      assert es[i] == init[i] && forall j :: 0 <= j < i ==> es[j] == init[j];
    } else {
      i := n;
      ReducedIsMaximum(init, id);
      forall j | 0 <= j < n ensures !CountsFor(es[j], id) {
        assert es[j] == init[j] && init[j] in init;
      }
    }
  }

  ghost predicate IsLatest(es: seq<UsageEvent>, id: string, ts: int) {
    (forall e :: e in es && CountsFor(e, id) ==> e.ts <= ts) && exists e :: e in es && CountsFor(e, id) && e.ts == ts
  }

  /** The time is the latest of them. */
  lemma {:induction false} ReducedIsLatest(es: seq<UsageEvent>, id: string)
    requires id in Reduced(es)
    ensures IsLatest(es, id, Reduced(es)[id].payload.ts)
  {
    var init, last := es[..|es| - 1], es[|es| - 1];
    assert es == init + [last];
    assert forall e :: e in es <==> e in init || e == last;
    hide Key;
    hide MaxCounters;
    if id in Reduced(init) {
      ReducedIsLatest(init, id);
      LatestGrows(init, last, id, Reduced(init)[id].payload.ts);
      hide IsLatest;
    } else {
      ReducedIsMaximum(init, id);
      assert forall e :: e in init ==> !CountsFor(e, id);
    }
  }

  lemma LatestGrows(es: seq<UsageEvent>, last: UsageEvent, id: string, ts: int)
    requires IsLatest(es, id, ts)
    ensures IsLatest(es + [last], id, if CountsFor(last, id) then Max(ts, last.ts) else ts)
  {
    assert forall e :: e in es + [last] <==> e in es || e == last;
    hide CountsFor;
  }

  // ---------- merging into the table ----------

  function UpsertRow(facts: Facts, f: Fact): Row {
    if f.id !in facts then Row(f, PARSER_VERSION)
    else
      var cur := facts[f.id];
      if Superset(f.payload.counters, cur.fact.payload.counters) then cur.(fact := MaxFact(cur.fact, f)) else cur
  }

  function Upsert(facts: Facts, f: Fact): Facts {
    facts[f.id := UpsertRow(facts, f)]
  }

  /** The table after one committed batch. */
  function Committed(facts: Facts, es: seq<UsageEvent>): Facts {
    Merged(facts, Reduced(es))
  }

  function Merged(facts: Facts, reduced: map<string, Fact>): Facts {
    map id | id in facts.Keys + reduced.Keys :: if id in reduced then UpsertRow(facts, reduced[id]) else facts[id]
  }

  /** Counters only grow, identities and parser versions stay. */
  ghost predicate Grows(a: Facts, b: Facts) {
    forall id {:trigger id in b} :: id in a ==> id in b && GrowsTo(a[id], b[id])
  }

  ghost predicate GrowsTo(r: Row, q: Row) {
    && q.version == r.version
    && Leq(r.fact.payload.counters, q.fact.payload.counters)
    && r.fact.payload.ts <= q.fact.payload.ts
    && q.fact == r.fact.(payload := r.fact.payload.(counters := q.fact.payload.counters, ts := q.fact.payload.ts))
  }

  lemma GrowsOn(a: Facts, b: Facts, c: Facts)
    requires Grows(a, b) && Grows(b, c)
    ensures Grows(a, c)
  {
    forall id | id in a ensures id in c && GrowsTo(a[id], c[id]) {
      assert id in b && GrowsTo(a[id], b[id]) && GrowsTo(b[id], c[id]);
    }
  }

  /** Every stored row is filed under its own identity. */
  ghost predicate Filed(facts: Facts) {
    forall id :: id in facts ==> facts[id].fact.id == id
  }

  lemma CommitGrows(facts: Facts, es: seq<UsageEvent>)
    ensures Grows(facts, Committed(facts, es))
    ensures Filed(facts) ==> Filed(Committed(facts, es))
  {
    forall id | id in Reduced(es)
      ensures Reduced(es)[id].id == id
    {
      ReducedIsMaximum(es, id);
    }
    forall id | id in facts
      ensures id in Committed(facts, es) && GrowsTo(facts[id], Committed(facts, es)[id])
    {
      assert id in Reduced(es) ==> Committed(facts, es)[id] == UpsertRow(facts, Reduced(es)[id]);
    }
  }

  /** A new identity is stored as the batch has it; a stored fact is written exactly when the batch
      exceeds it, and then takes the later time. */
  lemma CommitWrites(facts: Facts, es: seq<UsageEvent>, id: string)
    requires id in Reduced(es)
    ensures id in Committed(facts, es)
    ensures var f, row := Reduced(es)[id], Committed(facts, es)[id];
            if id !in facts then row == Row(f, 1)
            else
              var was, now := facts[id].fact.payload, row.fact.payload;
              if Leq(was.counters, f.payload.counters) && was.counters != f.payload.counters then
                now.counters == f.payload.counters && now.ts == (if was.ts < f.payload.ts then f.payload.ts else was.ts)
              else row == facts[id]
  {
    ReducedIsMaximum(es, id);
  }

  /** Committing the same batch again writes nothing. */
  lemma CommitTwice(facts: Facts, es: seq<UsageEvent>)
    ensures Committed(Committed(facts, es), es) == Committed(facts, es)
  {
    var once := Committed(facts, es);
    forall id | id in Reduced(es)
      ensures id in once && UpsertRow(once, Reduced(es)[id]) == once[id]
    {
      ReducedIsMaximum(es, id);
    }
  }

  /** A batch whose events of id are all covered by the stored fact leaves it alone. */
  lemma CoveredBatch(facts: Facts, es: seq<UsageEvent>, id: string)
    requires id in facts
    requires forall e :: e in es && CountsFor(e, id) ==> Leq(e.counters, facts[id].fact.payload.counters)
    ensures Committed(facts, es)[id] == facts[id]
  {
    ReducedIsMaximum(es, id);
    if id in Reduced(es) {
      MaximumIsLeast(es, id, Reduced(es)[id].payload.counters, facts[id].fact.payload.counters);
    }
  }

  /** The stored counters of id are the maximum over es; id is absent when es has none. */
  ghost predicate Holds(facts: Facts, es: seq<UsageEvent>, id: string) {
    if id in facts then IsMaximum(es, id, facts[id].fact.payload.counters)
    else !Occurs(es, id)
  }

  /** Committing a batch that repeats everything held so far makes the table hold
      the maximum of the new batch. */
  lemma CommitHolds(facts: Facts, es: seq<UsageEvent>, more: seq<UsageEvent>, id: string)
    requires Holds(facts, es, id) && forall e :: e in es ==> e in more
    ensures Holds(Committed(facts, more), more, id)
  {
    ReducedIsMaximum(more, id);
    if id in facts && id in Reduced(more) {
      var held, m := facts[id].fact.payload.counters, Reduced(more)[id].payload.counters;
      MaximumIsLeast(es, id, held, m);
      assert MaxCounters(held, m) == m;
    }
  }

  /** A batch without events of id does not touch it. */
  lemma ForeignBatch(facts: Facts, es: seq<UsageEvent>, id: string)
    requires forall e :: e in es ==> !CountsFor(e, id)
    ensures id in Committed(facts, es) <==> id in facts
    ensures id in facts ==> Committed(facts, es)[id] == facts[id]
  {
    ReducedIsMaximum(es, id);
  }
}
