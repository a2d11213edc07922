/** Model of the reading side of internal/ledger/observe.go: which stored days are added
    to a scan that did not fetch them. */
module Supplements {
  import opened Apportion
  import opened Clock
  import opened Events
  import opened Observations
  import opened SortedDays
  import opened Wrappers

  /** An inclusive span of days; None is an empty bound. */
  datatype DayRange = DayRange(from: Option<int>, to: Option<int>)

  const NO_RANGE := DayRange(None, None)

  predicate InRange(day: int, r: DayRange) {
    r.from.Some? && r.to.Some? && r.from.value <= day <= r.to.value
  }

  predicate DayInside(day: int, ranges: seq<DayRange>) {
    exists k :: 0 <= k < |ranges| && InRange(day, ranges[k])
  }

  /** An account row of the source on the day, fetched or retained. */
  predicate OnDay(e: UsageEvent, source: string, day: int) {
    e.source == source && e.ts != ZERO_TIME && (e.derivation == ProviderApi || e.derivation == Retained)
      && DayOf(e.ts) == day
  }

  function HaveDays(source: string, es: seq<UsageEvent>): set<int> {
    set e | e in es && OnDay(e, source, DayOf(e.ts)) :: DayOf(e.ts)
  }

  function RetainedEvent(source: string, day: int, v: Vec): UsageEvent {
    UsageEvent(source, "", "", "retained:" + DayText(day), "", day * DAY + NOON,
               Counters(v[0], v[1], v[2], v[3], 0), Degraded, Retained, true)
  }

  function CachedEvent(source: string, day: int, v: Vec): UsageEvent {
    RetainedEvent(source, day, v).(derivation := ProviderApi, quality := Authoritative,
                                   request := "cursor-api:covered:" + DayText(day))
  }

  /** The finished filtered windows, oldest first. */
  function Finished(obs: seq<Observation>): seq<DayRange> {
    if obs == [] then []
    else
      var ob := obs[|obs| - 1];
      Finished(obs[..|obs| - 1])
      + if ob.from.Some? && ob.to.Some? && ob.from.value <= ob.to.value && ob.origin == "api" && ob.coverage == "window"
        then [DayRange(ob.from, ob.to)] else []
  }

  /** The chained days that are neither present nor fetched. */
  function Eligible(chain: map<int, Vec>, have: set<int>, fetched: seq<DayRange>): set<int> {
    set d | d in chain && d !in have && !DayInside(d, fetched) && DaySum(chain[d]) != 0
  }

  function DayEvent(source: string, day: int, v: Vec, lookback: DayRange, finished: seq<DayRange>): UsageEvent {
    if InRange(day, lookback) && DayInside(day, finished) then CachedEvent(source, day, v)
    else RetainedEvent(source, day, v)
  }

  ghost function DayEvents(source: string, chain: map<int, Vec>, days: seq<int>, lookback: DayRange,
                           finished: seq<DayRange>): seq<UsageEvent>
    requires forall d :: d in days ==> d in chain
  {
    seq(|days|, i requires 0 <= i < |days| => DayEvent(source, days[i], chain[days[i]], lookback, finished))
  }

  /** AccountSupplement. With no lookback it is DaysOutside. */
  ghost function Supplement(table: seq<Observation>, source: string, lookback: DayRange, fetched: seq<DayRange>,
                            already: seq<UsageEvent>): seq<UsageEvent>
  {
    if source == "" then []
    else
      var obs := Asc(table);
      var chain := Chain(obs);
      var days := Eligible(chain, HaveDays(source, already), fetched);
      SortedIsOrder(days);
      DayEvents(source, chain, Sorted(days), lookback, Finished(obs))
  }

  // ---------- exactly once ----------

  function CountOn(es: seq<UsageEvent>, source: string, day: int): nat {
    if es == [] then 0 else (if OnDay(es[0], source, day) then 1 else 0) + CountOn(es[1..], source, day)
  }

  lemma DayEventOnDay(source: string, day: int, v: Vec, lookback: DayRange, finished: seq<DayRange>, s: string, d: int)
    ensures OnDay(DayEvent(source, day, v, lookback, finished), s, d) <==> s == source && d == day
    ensures VecOf(DayEvent(source, day, v, lookback, finished)) == v
  {
    NoonOfDay(day);
  }

  lemma {:induction false} DayEventsCount(source: string, chain: map<int, Vec>, days: seq<int>, lookback: DayRange,
                                          finished: seq<DayRange>, s: string, d: int)
    requires forall x :: x in days ==> x in chain
    requires forall i, j :: 0 <= i < j < |days| ==> days[i] < days[j]
    ensures CountOn(DayEvents(source, chain, days, lookback, finished), s, d) ==
            if s == source && d in days then 1 else 0
    decreases |days|
  {
    var out := DayEvents(source, chain, days, lookback, finished);
    if days != [] {
      DayEventOnDay(source, days[0], chain[days[0]], lookback, finished, s, d);
      DayEventsCount(source, chain, days[1..], lookback, finished, s, d);
      assert out[1..] == DayEvents(source, chain, days[1..], lookback, finished);
      assert days == [days[0]] + days[1..];
    }
  }

  /** Each stored day that is neither present nor fetched is added once, and no other;
      what is added for a day is its stored value. */
  lemma SupplementCountsOnce(table: seq<Observation>, source: string, lookback: DayRange, fetched: seq<DayRange>,
                             already: seq<UsageEvent>, s: string, day: int)
    requires source != ""
    ensures CountOn(Supplement(table, source, lookback, fetched, already), s, day) ==
            if s == source && ValueAt(table, day).Some? && CountOn(already, source, day) == 0
              && !DayInside(day, fetched)
            then 1 else 0
    ensures forall e :: e in Supplement(table, source, lookback, fetched, already) && OnDay(e, s, day) ==>
              ValueAt(table, day) == Some(VecOf(e))
  {
    SupplementCarriesValues(table, source, lookback, fetched, already, s, day);
    var obs := Asc(table);
    var days := Eligible(Chain(obs), HaveDays(source, already), fetched);
    SortedIsOrder(days);
    DayEventsCount(source, Chain(obs), Sorted(days), lookback, Finished(obs), s, day);
    CountIsHave(already, source, day);
    ChainIsNonZero(obs);
  }

  lemma SupplementCarriesValues(table: seq<Observation>, source: string, lookback: DayRange, fetched: seq<DayRange>,
                                already: seq<UsageEvent>, s: string, day: int)
    requires source != ""
    ensures forall e :: e in Supplement(table, source, lookback, fetched, already) && OnDay(e, s, day) ==>
              ValueAt(table, day) == Some(VecOf(e))
  {
    var chain := Chain(Asc(table));
    var days := Eligible(chain, HaveDays(source, already), fetched);
    SortedIsOrder(days);
    var out := Supplement(table, source, lookback, fetched, already);
    forall e | e in out && OnDay(e, s, day)
      ensures ValueAt(table, day) == Some(VecOf(e))
    {
      var i :| 0 <= i < |out| && out[i] == e;
      var d := Sorted(days)[i];
      assert d in days;
      DayEventOnDay(source, d, chain[d], lookback, Finished(Asc(table)), s, day);
    }
  }

  /** Some finished filtered window of the account covers the day. */
  ghost predicate WindowCovers(table: seq<Observation>, day: int) {
    exists ob :: ob in table && ob.origin == "api" && ob.coverage == "window" && ob.from.Some? && ob.to.Some?
      && ob.from.value <= day <= ob.to.value
  }

  lemma {:induction false} FinishedCovers(obs: seq<Observation>, day: int)
    ensures DayInside(day, Finished(obs)) <==> WindowCovers(obs, day)
  {
    if obs != [] {
      var init, ob := obs[..|obs| - 1], obs[|obs| - 1];
      assert obs == init + [ob];
      FinishedCovers(init, day);
      var here := if ob.from.Some? && ob.to.Some? && ob.from.value <= ob.to.value && ob.origin == "api"
                     && ob.coverage == "window"
                  then [DayRange(ob.from, ob.to)] else [];
      assert Finished(obs) == Finished(init) + here;
      InsideConcat(day, Finished(init), here);
      assert DayInside(day, here) <==> here != [] && InRange(day, here[0]);
    }
  }

  /** A stored note counts as a finished window of its days. */
  lemma NoteIsFinished(table: seq<Observation>, first: int, last: int, at: int, es: seq<UsageEvent>, day: int)
    requires first <= day <= last && !Stored(table, WindowNote(first, last, at, es).content)
    ensures WindowCovers(Insert(table, WindowNote(first, last, at, es)), day)
  {
    var note := WindowNote(first, last, at, es);
    var t := Insert(table, note);
    assert t[|t| - 1] in t;
  }

  lemma InsideConcat(day: int, a: seq<DayRange>, b: seq<DayRange>)
    ensures DayInside(day, a + b) <==> DayInside(day, a) || DayInside(day, b)
  {
    if k :| 0 <= k < |a| && InRange(day, a[k]) {
      assert (a + b)[k] == a[k];
    }
    if k :| 0 <= k < |b| && InRange(day, b[k]) {
      assert (a + b)[|a| + k] == b[k];
    }
  }

  /** How the row of a day is marked. */
  ghost predicate Marked(e: UsageEvent, source: string, day: int, cached: bool) {
    && e.source == source && e.model == "" && e.vendor == "" && e.session == "" && e.skipRequest
    && e.ts == day * DAY + 12 * HOUR && e.counters.reasoning == 0
    && if cached then
         e.derivation == ProviderApi && e.quality == Authoritative && e.request == "cursor-api:covered:" + DayText(day)
       else e.derivation == Retained && e.quality == Degraded && e.request == "retained:" + DayText(day)
  }

  lemma DayEventMarked(source: string, day: int, v: Vec, lookback: DayRange, table: seq<Observation>)
    ensures var e := DayEvent(source, day, v, lookback, Finished(Asc(table)));
            && DayOf(e.ts) == day
            && Marked(e, source, day, InRange(day, lookback) && WindowCovers(table, day))
  {
    NoonOfDay(day);
    FinishedCovers(Asc(table), day);
    AscKeeps(table);
  }

  /** What is added for a day is a cached account total exactly when the day is inside the lookback
      and inside a finished window, and a retained one otherwise; it is dated to the noon of the
      day, names no model, vendor or session, and counts as no request. */
  lemma SupplementTags(table: seq<Observation>, source: string, lookback: DayRange, fetched: seq<DayRange>,
                       already: seq<UsageEvent>, e: UsageEvent)
    requires e in Supplement(table, source, lookback, fetched, already)
    ensures var day := DayOf(e.ts);
            var recent := lookback.from.Some? && lookback.to.Some? && lookback.from.value <= day <= lookback.to.value;
            Marked(e, source, day, recent && WindowCovers(table, day))
  {
    var out := Supplement(table, source, lookback, fetched, already);
    var chain := Chain(Asc(table));
    var days := Eligible(chain, HaveDays(source, already), fetched);
    SortedIsOrder(days);
    var i :| 0 <= i < |out| && out[i] == e;
    var d := Sorted(days)[i];
    assert d in days && e == DayEvent(source, d, chain[d], lookback, Finished(Asc(table)));
    DayEventMarked(source, d, chain[d], lookback, table);
    hide Marked;
    hide Supplement;
    hide DayEvent;
    hide WindowCovers;
  }

  lemma {:induction false} CountIsHave(es: seq<UsageEvent>, source: string, day: int)
    ensures CountOn(es, source, day) > 0 <==> day in HaveDays(source, es)
    ensures CountOn(es, source, day) > 0 <==> exists e :: e in es && OnDay(e, source, day)
  {
    if es != [] {
      CountIsHave(es[1..], source, day);
      assert es == [es[0]] + es[1..];
    }
  }

  lemma {:induction false} WriteRowsNonZero(m: map<int, Vec>, days: seq<DayComp>)
    requires forall d :: d in m ==> DaySum(m[d]) != 0
    ensures forall d :: d in WriteRows(m, days) ==> DaySum(WriteRows(m, days)[d]) != 0
  {
    if days != [] {
      WriteRowsNonZero(m, days[..|days| - 1]);
    }
  }

  lemma {:induction false} ChainIsNonZero(obs: seq<Observation>)
    ensures forall d :: d in Chain(obs) ==> DaySum(Chain(obs)[d]) != 0
  {
    if obs != [] {
      var last := obs[|obs| - 1];
      ChainIsNonZero(obs[..|obs| - 1]);
      WriteRowsNonZero(Uncovered(Chain(obs[..|obs| - 1]), last), last.days);
    }
  }

  lemma {:induction false} CountConcat(a: seq<UsageEvent>, b: seq<UsageEvent>, source: string, day: int)
    ensures CountOn(a + b, source, day) == CountOn(a, source, day) + CountOn(b, source, day)
  {
    if a == [] {
      assert a + b == b;
    } else {
      assert (a + b)[1..] == a[1..] + b;
      CountConcat(a[1..], b, source, day);
    }
  }

  /** The same supplement on its own output adds nothing. */
  lemma SupplementTwice(table: seq<Observation>, source: string, lookback: DayRange, fetched: seq<DayRange>,
                        already: seq<UsageEvent>)
    ensures var out := Supplement(table, source, lookback, fetched, already);
            Supplement(table, source, lookback, fetched, already + out) == []
  {
    if source != "" {
      var out := Supplement(table, source, lookback, fetched, already);
      var again := already + out;
      var chain := Chain(Asc(table));
      forall day | day in Eligible(chain, HaveDays(source, again), fetched)
        ensures false
      {
        SupplementCountsOnce(table, source, lookback, fetched, already, source, day);
        CountConcat(already, out, source, day);
        CountIsHave(again, source, day);
      }
      assert Eligible(chain, HaveDays(source, again), fetched) == {};
    }
  }

  // ---------- a narrower account window ----------

  predicate IsFresh(e: UsageEvent, source: string) {
    e.derivation == ProviderApi && e.source == source
  }

  function Fresh(es: seq<UsageEvent>, source: string): seq<UsageEvent> {
    if es == [] then []
    else Fresh(es[..|es| - 1], source) + if IsFresh(es[|es| - 1], source) then [es[|es| - 1]] else []
  }

  /** apiPayloadHash: the rows in any order. */
  function ApiContent(pulled: seq<UsageEvent>): Content {
    ApiRows(multiset(seq(|pulled|, i requires 0 <= i < |pulled| => (pulled[i].model, pulled[i].ts, VecOf(pulled[i])))))
  }

  /** The first dated day of the account rows. */
  function FirstDay(pulled: seq<UsageEvent>): Option<int> {
    if pulled == [] then None
    else
      var e, before := pulled[|pulled| - 1], FirstDay(pulled[..|pulled| - 1]);
      if e.ts == ZERO_TIME then before
      else if before.None? || DayOf(e.ts) < before.value then Some(DayOf(e.ts)) else before
  }

  function Except(table: seq<Observation>, content: Content): seq<Observation> {
    if table == [] then []
    else
      var last := table[|table| - 1];
      Except(table[..|table| - 1], content) + if last.content == content then [] else [last]
  }

  /** The stored days before the account window, as of observations other than its own. */
  function Earlier(chain: map<int, Vec>, have: set<int>, first: int): set<int> {
    set d | d in chain && d < first && d !in have && DaySum(chain[d]) != 0
  }

  /** daysBeforeFresh. */
  ghost function BeforeFresh(table: seq<Observation>, source: string, es: seq<UsageEvent>): seq<UsageEvent> {
    var pulled := Fresh(es, source);
    match FirstDay(pulled)
    case None => []
    case Some(first) =>
      var chain := Chain(Asc(Except(table, ApiContent(pulled))));
      var days := Earlier(chain, HaveDays(source, es), first);
      SortedIsOrder(days);
      DayEvents(source, chain, Sorted(days), NO_RANGE, [])
  }

  function TableOf(tables: map<string, seq<Observation>>, source: string): seq<Observation> {
    if source in tables then tables[source] else []
  }

  /** A result of SupplementNarrowWindow: the events, then for each account source, in some
      order, its earlier days. */
  ghost function Narrowed(tables: map<string, seq<Observation>>, es: seq<UsageEvent>,
                          sources: seq<string>): seq<UsageEvent>
  {
    if sources == [] then es
    else
      var last := sources[|sources| - 1];
      Narrowed(tables, es, sources[..|sources| - 1]) + BeforeFresh(TableOf(tables, last), last, es)
  }

  lemma BeforeFreshCounts(table: seq<Observation>, source: string, es: seq<UsageEvent>, s: string, day: int)
    ensures CountOn(BeforeFresh(table, source, es), s, day) ==
            if s == source && FirstDay(Fresh(es, source)).Some? && day < FirstDay(Fresh(es, source)).value
               && CountOn(es, source, day) == 0 && ValueAt(Except(table, ApiContent(Fresh(es, source))), day).Some?
            then 1 else 0
    ensures forall e :: e in BeforeFresh(table, source, es) ==> e.derivation == Retained
  {
    var pulled := Fresh(es, source);
    if FirstDay(pulled).Some? {
      CountIsHave(es, source, day);
      EarlierCounts(Asc(Except(table, ApiContent(pulled))), HaveDays(source, es), FirstDay(pulled).value, source, s,
                    day);
    }
  }

  lemma EarlierCounts(obs: seq<Observation>, have: set<int>, first: int, source: string, s: string, day: int)
    ensures forall d :: d in Sorted(Earlier(Chain(obs), have, first)) ==> d in Chain(obs)
    ensures var out := DayEvents(source, Chain(obs), Sorted(Earlier(Chain(obs), have, first)), NO_RANGE, []);
            && CountOn(out, s, day)
               == (if s == source && day < first && day !in have && day in Chain(obs) then 1 else 0)
            && forall e :: e in out ==> e.derivation == Retained
  {
    var days := Earlier(Chain(obs), have, first);
    SortedIsOrder(days);
    DayEventsCount(source, Chain(obs), Sorted(days), NO_RANGE, [], s, day);
    ChainIsNonZero(obs);
  }

  /** What the pass of a source adds for a day is the value stored without its fresh rows. */
  lemma BeforeFreshCarries(table: seq<Observation>, source: string, es: seq<UsageEvent>, e: UsageEvent, s: string,
                           day: int)
    requires e in BeforeFresh(table, source, es) && OnDay(e, s, day)
    ensures s == source && ValueAt(Except(table, ApiContent(Fresh(es, source))), day) == Some(VecOf(e))
  {
    var chain := Chain(Asc(Except(table, ApiContent(Fresh(es, source)))));
    var days := Earlier(chain, HaveDays(source, es), FirstDay(Fresh(es, source)).value);
    SortedIsOrder(days);
    var out := BeforeFresh(table, source, es);
    var i :| 0 <= i < |out| && out[i] == e;
    assert Sorted(days)[i] in days;
    DayEventOnDay(source, Sorted(days)[i], chain[Sorted(days)[i]], NO_RANGE, [], s, day);
  }

  // ---------- the pass of one source, said with the rows ----------

  /** A fetched account row of the source. */
  predicate Fetched(e: UsageEvent, source: string) {
    e.source == source && e.derivation.ProviderApi?
  }

  lemma {:induction false} FreshAre(es: seq<UsageEvent>, source: string)
    ensures forall e :: e in Fresh(es, source) <==> e in es && Fetched(e, source)
  {
    if es != [] {
      var init, last := es[..|es| - 1], es[|es| - 1];
      FreshAre(init, source);
      assert es == init + [last];
    }
  }

  lemma {:induction false} FirstDayIs(pulled: seq<UsageEvent>)
    ensures match FirstDay(pulled)
            case None => forall e :: e in pulled ==> e.ts == ZERO_TIME
            case Some(first) =>
              && (exists e :: e in pulled && e.ts != ZERO_TIME && DayOf(e.ts) == first)
              && forall e :: e in pulled && e.ts != ZERO_TIME ==> first <= DayOf(e.ts)
  {
    if pulled != [] {
      var init, last := pulled[..|pulled| - 1], pulled[|pulled| - 1];
      FirstDayIs(init);
      assert pulled == init + [last];
      assert forall e :: e in pulled <==> e in init || e == last;
    }
  }

  /** The observations of other content. */
  lemma {:induction false} ExceptIs(table: seq<Observation>, content: Content, ob: Observation)
    ensures ob in Except(table, content) <==> ob in table && ob.content != content
  {
    if table != [] {
      var init, last := table[..|table| - 1], table[|table| - 1];
      ExceptIs(init, content, ob);
      assert table == init + [last];
      assert ob in table <==> ob in init || ob == last;
    }
  }

  /** When none is of that content all of them stay, in their order. */
  lemma {:induction false} ExceptNothing(table: seq<Observation>, content: Content)
    requires forall i :: 0 <= i < |table| ==> table[i].content != content
    ensures Except(table, content) == table
  {
    if table != [] {
      ExceptNothing(table[..|table| - 1], content);
    }
  }

  /** One or two fetched rows as content. */
  lemma ContentOf(e: UsageEvent, f: UsageEvent)
    ensures ApiContent([e]) == ApiRows(multiset{(e.model, e.ts, VecOf(e))})
    ensures ApiContent([e, f]) == ApiRows(multiset{(e.model, e.ts, VecOf(e)), (f.model, f.ts, VecOf(f))})
  {
    hide VecOf;
    var x, y := (e.model, e.ts, VecOf(e)), (f.model, f.ts, VecOf(f));
    var one, two := [e], [e, f];
    assert seq(|one|, i requires 0 <= i < |one| => (one[i].model, one[i].ts, VecOf(one[i]))) == [x];
    assert seq(|two|, i requires 0 <= i < |two| => (two[i].model, two[i].ts, VecOf(two[i]))) == [x, y];
  }

  /** Fetched rows are told apart by model, time and the four counters, and not by their order. */
  lemma ContentTells(e: UsageEvent, f: UsageEvent)
    ensures ApiContent([e]) == ApiContent([f]) <==>
              && e.model == f.model && e.ts == f.ts && e.counters.miss == f.counters.miss
              && e.counters.cacheRead == f.counters.cacheRead && e.counters.cacheCreate == f.counters.cacheCreate
              && e.counters.output == f.counters.output
    ensures ApiContent([e, f]) == ApiContent([f, e])
  {
    ContentOf(e, f);
    ContentOf(f, e);
    SameVec(e, f);
    hide ApiContent;
    hide VecOf;
    var x, y := (e.model, e.ts, VecOf(e)), (f.model, f.ts, VecOf(f));
    assert x in multiset{x};
    assert multiset{x} == multiset{y} <==> x == y;
    assert multiset{x, y} == multiset{y, x};
  }

  lemma SameVec(e: UsageEvent, f: UsageEvent)
    ensures VecOf(e) == VecOf(f) <==>
              && e.counters.miss == f.counters.miss && e.counters.cacheRead == f.counters.cacheRead
              && e.counters.cacheCreate == f.counters.cacheCreate && e.counters.output == f.counters.output
  {
    assert VecOf(e)[0] == e.counters.miss && VecOf(f)[0] == f.counters.miss;
    assert VecOf(e)[1] == e.counters.cacheRead && VecOf(f)[1] == f.counters.cacheRead;
    assert VecOf(e)[2] == e.counters.cacheCreate && VecOf(f)[2] == f.counters.cacheCreate;
    assert VecOf(e)[3] == e.counters.output && VecOf(f)[3] == f.counters.output;
  }

  /** A day is added for a source exactly when some fetched row of it is dated, none as early as the
      day, no account or retained row of it is on the day, and the observations of other content
      than what was fetched have a value for it. */
  lemma EarlierDayIsAdded(table: seq<Observation>, source: string, es: seq<UsageEvent>, day: int)
    ensures CountOn(BeforeFresh(table, source, es), source, day) ==
            if (exists e :: e in es && Fetched(e, source) && e.ts != ZERO_TIME)
               && (forall e :: e in es && Fetched(e, source) && e.ts != ZERO_TIME ==> day < DayOf(e.ts))
               && (forall e :: e in es && e.source == source && e.ts != ZERO_TIME && DayOf(e.ts) == day ==>
                     !e.derivation.ProviderApi? && !e.derivation.Retained?)
               && ValueAt(Except(table, ApiContent(Fresh(es, source))), day).Some?
            then 1 else 0
  {
    BeforeFreshCounts(table, source, es, source, day);
    FreshAre(es, source);
    FirstDayIs(Fresh(es, source));
    CountIsHave(es, source, day);
    hide BeforeFresh;
    hide Except;
    hide ApiContent;
    hide Fetched;
    hide DayOf;
  }

  ghost predicate Distinct(sources: seq<string>) {
    forall i, j :: 0 <= i < j < |sources| ==> sources[i] != sources[j]
  }

  /** If the row is one of this day, it has the value stored without the fresh rows. */
  ghost predicate CarriesStored(tables: map<string, seq<Observation>>, es: seq<UsageEvent>, e: UsageEvent, s: string,
                                day: int)
  {
    OnDay(e, s, day) ==> ValueAt(Except(TableOf(tables, s), ApiContent(Fresh(es, s))), day) == Some(VecOf(e))
  }

  /** A source's days are added by its own pass only, behind the scan, with their stored
      values. */
  lemma {:induction false} NarrowedCounts(tables: map<string, seq<Observation>>, es: seq<UsageEvent>,
                                          sources: seq<string>, s: string, day: int)
    requires Distinct(sources)
    ensures CountOn(Narrowed(tables, es, sources), s, day) ==
            CountOn(es, s, day) + if s in sources then CountOn(BeforeFresh(TableOf(tables, s), s, es), s, day) else 0
    ensures forall src :: Fresh(Narrowed(tables, es, sources), src) == Fresh(es, src)
    ensures es <= Narrowed(tables, es, sources)
    ensures forall i :: |es| <= i < |Narrowed(tables, es, sources)| ==>
              CarriesStored(tables, es, Narrowed(tables, es, sources)[i], s, day)
  {
    if sources != [] {
      var init, last := sources[..|sources| - 1], sources[|sources| - 1];
      assert sources == init + [last];
      NarrowedCounts(tables, es, init, s, day);
      var extra := BeforeFresh(TableOf(tables, last), last, es);
      CountConcat(Narrowed(tables, es, init), extra, s, day);
      BeforeFreshCounts(TableOf(tables, last), last, es, s, day);
      forall src { FreshIgnoresRetained(Narrowed(tables, es, init), extra, src); }
      forall e | e in extra ensures CarriesStored(tables, es, e, s, day) {
        if OnDay(e, s, day) {
          BeforeFreshCarries(TableOf(tables, last), last, es, e, s, day);
        }
      }
    }
  }

  lemma {:induction false} FreshIgnoresRetained(es: seq<UsageEvent>, extra: seq<UsageEvent>, source: string)
    requires forall e :: e in extra ==> e.derivation == Retained
    ensures Fresh(es + extra, source) == Fresh(es, source)
    decreases |extra|
  {
    if extra == [] {
      assert es + extra == es;
    } else {
      assert (es + extra)[..|es + extra| - 1] == es + extra[..|extra| - 1];
      FreshIgnoresRetained(es, extra[..|extra| - 1], source);
    }
  }

  lemma NothingEarlierLeft(tables: map<string, seq<Observation>>, es: seq<UsageEvent>, sources: seq<string>,
                           source: string, day: int)
    requires Distinct(sources) && source in sources && FirstDay(Fresh(es, source)).Some?
    ensures day !in Earlier(Chain(Asc(Except(TableOf(tables, source), ApiContent(Fresh(es, source))))),
                            HaveDays(source, Narrowed(tables, es, sources)), FirstDay(Fresh(es, source)).value)
  {
    NarrowedCounts(tables, es, sources, source, day);
    BeforeFreshCounts(TableOf(tables, source), source, es, source, day);
    CountIsHave(Narrowed(tables, es, sources), source, day);
  }

  /** Narrowing an already narrowed scan adds nothing for any source. */
  lemma NarrowTwice(tables: map<string, seq<Observation>>, es: seq<UsageEvent>, sources: seq<string>, source: string)
    requires Distinct(sources) && source in sources
    ensures BeforeFresh(TableOf(tables, source), source, Narrowed(tables, es, sources)) == []
  {
    NarrowedCounts(tables, es, sources, source, 0);
    if FirstDay(Fresh(es, source)).Some? {
      forall day {
        NothingEarlierLeft(tables, es, sources, source, day);
      }
    }
  }
}
