/** Model of internal/publicprofile/retain.go: an agent's daily totals read off a verified
    snapshot, kept as an observation, and put back in place of local token rows. */
module Retain {
  import opened Apportion
  import opened Events
  import opened Int64
  import opened Observations
  import opened Snapshots
  import opened SortedDays
  import opened Supplements
  import opened Wrappers

  const TOKENS := "tokens"

  // ---------- reading the snapshot ----------

  function RowFor(agents: seq<Breakdown>, source: string): Option<Breakdown> {
    if agents == [] then None else if agents[0].id == source then Some(agents[0]) else RowFor(agents[1..], source)
  }

  predicate TokenSeries(s: Series, source: string) {
    s.id == source && (s.metric == "" || s.metric == TOKENS)
  }

  function SeriesFor(series: seq<Series>, source: string): Option<seq<int>> {
    if series == [] then None
    else if TokenSeries(series[0], source) then Some(series[0].values)
    else SeriesFor(series[1..], source)
  }

  /** The first row of the source. */
  lemma {:induction false} FirstRowFor(agents: seq<Breakdown>, source: string)
    ensures match RowFor(agents, source)
            case None => forall i :: 0 <= i < |agents| ==> agents[i].id != source
            case Some(row) =>
              exists i :: 0 <= i < |agents| && agents[i] == row && row.id == source
                && forall j :: 0 <= j < i ==> agents[j].id != source
  {
    if agents != [] && agents[0].id != source {
      var rest := agents[1..];
      FirstRowFor(rest, source);
      forall j | 0 <= j < |rest| ensures agents[j + 1] == rest[j] {
      }
      if RowFor(agents, source).Some? {
        var i :| 0 <= i < |rest| && rest[i] == RowFor(agents, source).value && rest[i].id == source
                 && forall j :: 0 <= j < i ==> rest[j].id != source;
        forall j | 0 <= j < i + 1 ensures agents[j].id != source {
          assert j > 0 ==> agents[j] == rest[j - 1];
        }
        assert agents[i + 1] == rest[i];
      } else {
        forall j | 0 <= j < |agents| ensures agents[j].id != source {
          assert j > 0 ==> agents[j] == rest[j - 1];
        }
      }
    }
  }

  predicate CountsTokens(s: Series, source: string) {
    s.id == source && s.metric in {"", "tokens"}
  }

  /** The values of its first series of tokens. */
  lemma {:induction false} FirstSeriesFor(series: seq<Series>, source: string)
    ensures match SeriesFor(series, source)
            case None => forall i :: 0 <= i < |series| ==> !CountsTokens(series[i], source)
            case Some(values) =>
              exists i :: 0 <= i < |series| && CountsTokens(series[i], source) && series[i].values == values
                && forall j :: 0 <= j < i ==> !CountsTokens(series[j], source)
  {
    if series != [] {
      assert CountsTokens(series[0], source) <==> TokenSeries(series[0], source);
      hide CountsTokens;
      hide TokenSeries;
      var rest := series[1..];
      if !CountsTokens(series[0], source) {
        FirstSeriesFor(rest, source);
        if SeriesFor(series, source).Some? {
          var i :| 0 <= i < |rest| && CountsTokens(rest[i], source)
                   && rest[i].values == SeriesFor(series, source).value
                   && forall j :: 0 <= j < i ==> !CountsTokens(rest[j], source);
          forall j | 0 <= j < i + 1 ensures !CountsTokens(series[j], source) {
            assert j > 0 ==> series[j] == rest[j - 1];
          }
          assert series[i + 1] == rest[i];
        } else {
          forall j | 0 <= j < |series| ensures !CountsTokens(series[j], source) {
            assert j > 0 ==> series[j] == rest[j - 1];
          }
        }
      }
    }
  }

  /** The four components, when all are known, non-negative and add up to the total. */
  function ComponentVector(t: Totals): Option<Vec> {
    if t.miss.None? || t.miss.value < 0 || t.cacheRead.None? || t.cacheRead.value < 0
       || t.cacheCreate.None? || t.cacheCreate.value < 0 || t.output.None? || t.output.value < 0
       || t.total.None? || t.total.value < 0 then None
    else
      var v: Vec := [t.miss.value, t.cacheRead.value, t.cacheCreate.value, t.output.value];
      if Wrap(Sum4(v)) != t.total.value then None else Some(v)
  }

  predicate Contiguous(dates: seq<Option<int>>) {
    && (forall i :: 0 <= i < |dates| ==> dates[i].Some?)
    && (forall i, j :: 0 <= i < |dates| && j == i + 1 < |dates| ==>
        dates[i].Some? && dates[j].Some? && dates[j].value == dates[i].value + 1)
  }

  /** The positive values, and the days they are on. */
  function Weights(values: seq<int>): seq<int> {
    if values == [] then []
    else Weights(values[..|values| - 1]) + if values[|values| - 1] > 0 then [values[|values| - 1]] else []
  }

  function DaysAt(dates: seq<Option<int>>, values: seq<int>): (ds: seq<int>)
    requires |dates| >= |values| && forall i :: 0 <= i < |values| ==> dates[i].Some?
    ensures |ds| == |Weights(values)|
  {
    if values == [] then []
    else
      var n := |values| - 1;
      DaysAt(dates, values[..n]) + if values[n] > 0 then [dates[n].value] else []
  }

  /** The snapshot carries everything the split needs, and its sums agree in registers. */
  ghost predicate Splittable(snap: Snapshot, source: string) {
    && RowFor(snap.agents, source).Some? && MeasuredAgent(RowFor(snap.agents, source).value)
    && ComponentVector(RowFor(snap.agents, source).value.totals).Some?
    && SeriesFor(snap.series, source).Some?
    && var values := SeriesFor(snap.series, source).value;
       && 0 < |snap.dates| == |values| && Contiguous(snap.dates)
       && (forall i :: 0 <= i < |values| ==> values[i] >= 0)
       && Wrap(Sum(values)) == Wrap(Sum4(ComponentVector(RowFor(snap.agents, source).value.totals).value))
       && Weights(values) != []
  }

  ghost function PartsOf(snap: Snapshot, source: string): Vec
    requires Splittable(snap, source)
  {
    ComponentVector(RowFor(snap.agents, source).value.totals).value
  }

  ghost function ValuesOf(snap: Snapshot, source: string): seq<int>
    requires Splittable(snap, source)
  {
    SeriesFor(snap.series, source).value
  }

  /** Neither the vector nor the series sums past int64. */
  ghost predicate TotalsFit(snap: Snapshot, source: string)
    requires Splittable(snap, source)
  {
    Sum4(PartsOf(snap, source)) <= MAX && Sum(ValuesOf(snap, source)) <= MAX
  }

  /** Every number of the snapshot that is read is an int64. */
  ghost predicate Int64s(snap: Snapshot, source: string)
    requires Splittable(snap, source)
  {
    InInt64(PartsOf(snap, source)) && forall v :: v in ValuesOf(snap, source) ==> v <= MAX
  }

  function Round(laps: int): int {
    SPAN * laps
  }

  /** The same number, or where that is not asked for, whole laps of the register apart. */
  ghost predicate Same(exact: bool, a: int, b: int) {
    exists laps :: a == b + Round(laps) && (exact ==> laps == 0)
  }

  /** Numbers whole laps apart are the same register. */
  lemma SameRegister(a: int, b: int)
    ensures Same(false, a, b) <==> Wrap(a) == Wrap(b)
  {
    if Wrap(a) == Wrap(b) {
      assert a == b + Round((a - MIN) / SPAN - (b - MIN) / SPAN);
    } else {
      forall laps ensures a != b + Round(laps) {
        LapsKeepRegister(b, laps);
      }
    }
  }

  lemma LapsKeepRegister(b: int, laps: int)
    ensures Wrap(b + Round(laps)) == Wrap(b)
  {
  }

  lemma SameSum(exact: bool, a: int, b: int, c: int, d: int)
    requires Same(exact, a, b) && Same(exact, c, d)
    ensures Same(exact, a + c, b + d)
  {
    var k :| a == b + Round(k) && (exact ==> k == 0);
    var m :| c == d + Round(m) && (exact ==> m == 0);
    assert a + c == b + d + Round(k + m);
  }

  lemma SameSelf(exact: bool, a: int, b: int)
    requires a == b
    ensures Same(exact, a, b)
  {
    assert a == b + Round(0);
  }

  /** In registers, and in whole numbers when the totals fit. */
  ghost predicate SplitsSnapshot(days: seq<DayComp>, snap: Snapshot, source: string)
    requires Splittable(snap, source)
  {
    var values := ValuesOf(snap, source);
    IsSplit(days, DaysAt(snap.dates, values), Weights(values), PartsOf(snap, source), TotalsFit(snap, source))
  }

  /** days is a split of parts over the days of positive value. */
  ghost predicate IsSplit(days: seq<DayComp>, dayNumbers: seq<int>, weights: seq<int>, parts: Vec, exact: bool) {
    && |days| == |dayNumbers| == |weights| > 0
    && (forall i :: 0 <= i < |days| ==> days[i].day == dayNumbers[i] && InInt64(days[i].v))
    && (forall i :: 0 <= i < |days| ==> 0 < weights[i] <= MAX && Same(exact, Sum4(days[i].v), weights[i]))
    && (forall i, j :: 0 <= i < j < |days| ==> days[i].day < days[j].day)
    && (forall c :: 0 <= c < 4 ==> Same(exact, Column(Vectors(days), c), parts[c]))
  }

  function Paired(dates: seq<int>, rows: seq<Vec>): (days: seq<DayComp>)
    requires |dates| == |rows|
    ensures |days| == |rows|
  {
    seq(|rows|, i requires 0 <= i < |rows| => DayComp(dates[i], rows[i]))
  }

  /** DaysFromSnapshot: what is not splittable is refused, the rest is left to the split. */
  ghost function FromSnapshot(snap: Snapshot, source: string): Split<seq<DayComp>> {
    if !Splittable(snap, source) then Refused
    else
      var weights, parts := Weights(ValuesOf(snap, source)), PartsOf(snap, source);
      match Allocate(weights, parts)
      case Answer(rows) =>
        SuccessConserves(weights, parts);
        Answer(Paired(DaysAt(snap.dates, ValuesOf(snap, source)), rows))
      case Refused => Refused
      case ZeroDivisor => ZeroDivisor
  }

  function Vectors(days: seq<DayComp>): seq<Vec> {
    if days == [] then [] else Vectors(days[..|days| - 1]) + [days[|days| - 1].v]
  }

  // ---------- the rows kept for an observation ----------

  /** EventsFromDays. */
  function EventsOf(source: string, days: seq<DayComp>): seq<UsageEvent> {
    if days == [] then []
    else
      var d := days[|days| - 1];
      EventsOf(source, days[..|days| - 1]) + if DaySum(d.v) == 0 then [] else [RetainedEvent(source, d.day, d.v)]
  }

  // ---------- putting them back ----------

  function RetainedSources(es: seq<UsageEvent>): set<string> {
    set e | e in es && e.source != "" && e.derivation == Retained :: e.source
  }

  /** A local row of a retained source keeps its request and loses its tokens. */
  function Strip(e: UsageEvent, sources: set<string>): UsageEvent {
    if e.source in sources && e.derivation != Retained
    then e.(counters := e.counters.(miss := 0, cacheRead := 0, cacheCreate := 0, output := 0), quality := Unset,
            derivation := Local(""))
    else e
  }

  function StripAll(es: seq<UsageEvent>, sources: set<string>): seq<UsageEvent> {
    if es == [] then [] else StripAll(es[..|es| - 1], sources) + [Strip(es[|es| - 1], sources)]
  }

  /** ApplyRetainedEvents. */
  function ApplyRetained(es: seq<UsageEvent>, kept: seq<UsageEvent>): seq<UsageEvent> {
    var sources := RetainedSources(kept);
    if sources == {} then es else StripAll(es, sources) + kept
  }

  // ---------- totals ----------

  /** What is added up: one component of a source, or all its tokens on one UTC day. */
  datatype Query = Component(source: string, c: nat) | OnDate(source: string, day: int)

  function Measure(q: Query, e: UsageEvent): int {
    if e.source != q.source then 0
    else match q
         case Component(_, c) => if c < 4 then VecOf(e)[c] else 0
         case OnDate(_, day) => if DayOf(e.ts) == day then Sum4(VecOf(e)) else 0
  }

  function Total(es: seq<UsageEvent>, q: Query): int {
    if es == [] then 0 else Total(es[..|es| - 1], q) + Measure(q, es[|es| - 1])
  }

  /** The rows of a source that were already retained before. */
  function AlreadyRetained(es: seq<UsageEvent>, source: string): seq<UsageEvent> {
    if es == [] then []
    else
      var e := es[|es| - 1];
      AlreadyRetained(es[..|es| - 1], source) + if e.source == source && e.derivation == Retained then [e] else []
  }

  // ---------- round trip: split, store, fold, replay ----------

  lemma {:induction false} SortedOfAscending(ks: seq<int>, s: set<int>)
    requires forall i, j :: 0 <= i < j < |ks| ==> ks[i] < ks[j]
    requires forall k :: k in s <==> k in ks
    ensures Sorted(s) == ks
    decreases |ks|
  {
    if ks == [] {
      assert (forall k :: k !in s) ==> s == {};
    } else {
      assert ks[0] in ks && ks == [ks[0]] + ks[1..];
      assert Least(s) == ks[0];
      SortedOfAscending(ks[1..], s - {ks[0]});
    }
  }

  /** The days as the map the fold works on. */
  function AsMap(days: seq<DayComp>): map<int, Vec> {
    if days == [] then map[]
    else AsMap(days[..|days| - 1])[days[|days| - 1].day := days[|days| - 1].v]
  }

  function DayList(days: seq<DayComp>): (ks: seq<int>)
    ensures |ks| == |days| && forall i :: 0 <= i < |days| ==> ks[i] == days[i].day
  {
    if days == [] then [] else DayList(days[..|days| - 1]) + [days[|days| - 1].day]
  }

  ghost predicate PositiveDays(days: seq<DayComp>) {
    && Ascending(days)
    && forall i :: 0 <= i < |days| ==> InInt64(days[i].v) && DaySum(days[i].v) > 0
  }

  lemma {:induction false} AsMapKeys(days: seq<DayComp>)
    requires Ascending(days)
    ensures forall d :: d in AsMap(days) <==> d in DayList(days)
    ensures forall i :: 0 <= i < |days| ==> days[i].day in AsMap(days) && AsMap(days)[days[i].day] == days[i].v
  {
    if days != [] {
      var init, last := days[..|days| - 1], days[|days| - 1];
      AsMapKeys(init);
      assert DayList(days) == DayList(init) + [last.day];
      forall i | 0 <= i < |init| ensures days[i].day in AsMap(days) && AsMap(days)[days[i].day] == days[i].v {
        assert init[i] == days[i];
      }
    }
  }

  /** Rebuilding rows from the map gives the days back. */
  lemma RowsOfAsMap(days: seq<DayComp>)
    requires Ascending(days)
    ensures Sorted(AsMap(days).Keys) == DayList(days)
    ensures RowsOf(AsMap(days)) == days
  {
    AsMapKeys(days);
    SortedOfAscending(DayList(days), AsMap(days).Keys);
    var m := AsMap(days);
    SortedIsOrder(m.Keys);
    forall i | 0 <= i < |days| ensures DayComp(Sorted(m.Keys)[i], m[Sorted(m.Keys)[i]]) == days[i] {
    }
  }

  lemma AddZero(v: Vec)
    requires InInt64(v)
    ensures AddVec([0, 0, 0, 0], v) == v
  {
  }

  lemma {:induction false} EventsByDay(source: string, days: seq<DayComp>)
    requires PositiveDays(days)
    ensures ByDay(EventsOf(source, days)) == AsMap(days)
  {
    if days != [] {
      var init, d := days[..|days| - 1], days[|days| - 1];
      EventsByDay(source, init);
      assert d.day !in DayList(init);
      AsMapKeys(init);
      ByDaySnoc(source, EventsOf(source, init), d);
    }
  }

  lemma ByDaySnoc(source: string, es: seq<UsageEvent>, d: DayComp)
    requires InInt64(d.v) && d.day !in ByDay(es)
    ensures ByDay(es + [RetainedEvent(source, d.day, d.v)]) == ByDay(es)[d.day := d.v]
  {
    var e := RetainedEvent(source, d.day, d.v);
    assert (es + [e])[..|es|] == es;
    NoonOfDay(d.day);
    AddZero(d.v);
    assert VecOf(e) == d.v;
  }

  lemma {:induction false} WriteRowsIsAsMap(days: seq<DayComp>)
    requires PositiveDays(days)
    ensures WriteRows(map[], days) == AsMap(days)
  {
    if days != [] {
      WriteRowsIsAsMap(days[..|days| - 1]);
    }
  }

  lemma {:induction false} NonZeroKeepsAll(days: seq<DayComp>)
    requires forall i :: 0 <= i < |days| ==> DaySum(days[i].v) != 0
    ensures NonZero(days) == days
  {
    if days != [] {
      var init, last := days[..|days| - 1], days[|days| - 1];
      forall i | 0 <= i < |init| ensures DaySum(init[i].v) != 0 {
        assert init[i] == days[i];
      }
      NonZeroKeepsAll(init);
      assert DaySum(last.v) != 0;
      assert days == init + [last];
    }
  }

  ghost predicate IsReplay(es: seq<UsageEvent>, source: string, days: seq<DayComp>) {
    |es| == |days| && forall i :: 0 <= i < |days| ==> es[i] == RetainedEvent(source, days[i].day, days[i].v)
  }

  lemma ReplaySnoc(es: seq<UsageEvent>, source: string, days: seq<DayComp>, d: DayComp)
    requires IsReplay(es, source, days)
    ensures IsReplay(es + [RetainedEvent(source, d.day, d.v)], source, days + [d])
  {
  }

  lemma {:induction false} EventsOfIsReplay(source: string, days: seq<DayComp>)
    requires PositiveDays(days)
    ensures IsReplay(EventsOf(source, days), source, days)
  {
    if days != [] {
      var init, d := days[..|days| - 1], days[|days| - 1];
      EventsOfSnoc(source, days);
      EventsOfIsReplay(source, init);
      ReplaySnoc(EventsOf(source, init), source, init, d);
      assert days == init + [d];
    }
  }

  /** ChainedRetainedEvents: every stored day, as a supplement to nothing. */
  ghost function Chained(table: seq<Observation>, source: string): seq<UsageEvent> {
    Supplement(table, source, NO_RANGE, [], [])
  }

  /** Storing the split of a snapshot in an empty chain and reading the chain back
      gives exactly the rows that were stored. */
  lemma StoreAndReplay(source: string, days: seq<DayComp>, origin: string, coverage: string, at: int)
    requires source != "" && PositiveDays(days) && days != [] && TokenSum(days) > 0
    ensures Chained(Saved([], origin, coverage, at, EventsOf(source, days)), source) == EventsOf(source, days)
  {
    GroupedEvents(source, days);
    NonZeroKeepsAll(days);
    WriteRowsIsAsMap(days);
    ReplayOfOne(source, days, SavedObservation(origin, coverage, at, EventsOf(source, days)));
    SavedAlone(origin, coverage, at, EventsOf(source, days));
  }

  lemma GroupedEvents(source: string, days: seq<DayComp>)
    requires PositiveDays(days)
    ensures GroupDays(EventsOf(source, days)) == days
  {
    EventsByDay(source, days);
    RowsOfAsMap(days);
  }

  lemma InsertAlone(ob: Observation)
    requires NonZero(ob.days) == ob.days
    ensures Insert([], ob) == [ob]
  {
    assert [] + [ob] == [ob];
  }

  lemma SavedAlone(origin: string, coverage: string, at: int, es: seq<UsageEvent>)
    requires GroupDays(es) != [] && TokenSum(GroupDays(es)) > 0 && NonZero(GroupDays(es)) == GroupDays(es)
    ensures Saved([], origin, coverage, at, es) == [SavedObservation(origin, coverage, at, es)]
  {
    InsertAlone(SavedObservation(origin, coverage, at, es));
  }

  /** A table of one observation replays its rows. */
  lemma ReplayOfOne(source: string, days: seq<DayComp>, ob: Observation)
    requires source != "" && PositiveDays(days) && ob.days == days && WriteRows(map[], days) == AsMap(days)
    ensures Chained([ob], source) == EventsOf(source, days)
  {
    AscOfOne(ob);
    ChainOfOne(ob);
    RowsOfAsMap(days);
    AsMapKeys(days);
    var chain := AsMap(days);
    assert HaveDays(source, []) == {};
    EligibleIsAll(days, HaveDays(source, []));
    assert Chained([ob], source) == DayEvents(source, chain, DayList(days), NO_RANGE, Finished([ob]));
    DayEventsAreAll(source, days, Finished([ob]));
  }

  lemma DayEventsAreAll(source: string, days: seq<DayComp>, finished: seq<DayRange>)
    requires PositiveDays(days)
    ensures forall d :: d in DayList(days) ==> d in AsMap(days)
    ensures DayEvents(source, AsMap(days), DayList(days), NO_RANGE, finished) == EventsOf(source, days)
  {
    AsMapKeys(days);
    EventsOfIsReplay(source, days);
  }

  lemma AscOfOne(ob: Observation)
    ensures Asc([ob]) == [ob]
  {
    assert [ob][..0] == [];
  }

  lemma ChainOfOne(ob: Observation)
    ensures Chain([ob]) == WriteRows(map[], ob.days)
  {
    assert [ob][..0] == [];
    assert Chain([ob]) == Fold(map[], ob);
    assert Uncovered(map[], ob) == map[];
  }

  lemma EligibleIsAll(days: seq<DayComp>, have: set<int>)
    requires PositiveDays(days) && have == {}
    ensures Eligible(AsMap(days), have, []) == AsMap(days).Keys
  {
    AsMapKeys(days);
    forall d | d in AsMap(days) ensures DaySum(AsMap(days)[d]) != 0 {
      var i :| 0 <= i < |days| && DayList(days)[i] == d;
    }
  }

  // ---------- totals after putting the rows back ----------

  lemma {:induction false} TotalConcat(a: seq<UsageEvent>, b: seq<UsageEvent>, q: Query)
    ensures Total(a + b, q) == Total(a, q) + Total(b, q)
    decreases |b|
  {
    if b == [] {
      assert a + b == a;
    } else {
      assert (a + b)[..|a + b| - 1] == a + b[..|b| - 1];
      TotalConcat(a, b[..|b| - 1], q);
    }
  }

  lemma TotalSnoc(es: seq<UsageEvent>, e: UsageEvent, q: Query)
    ensures Total(es + [e], q) == Total(es, q) + Measure(q, e)
  {
    assert (es + [e])[..|es|] == es;
  }

  lemma StripMeasure(e: UsageEvent, source: string, q: Query)
    ensures Measure(q, Strip(e, {source})) ==
            if e.source == source && e.derivation != Retained then 0 else Measure(q, e)
  {
  }

  /** After stripping, a retained source has only its retained rows left; the other
      sources keep theirs. */
  lemma {:induction false} StripTotals(es: seq<UsageEvent>, source: string, q: Query)
    ensures Total(StripAll(es, {source}), q) == Total(if q.source == source then AlreadyRetained(es, source) else es, q)
  {
    if es != [] {
      var init, e := es[..|es| - 1], es[|es| - 1];
      StripTotals(init, source, q);
      StripMeasure(e, source, q);
      TotalSnoc(StripAll(init, {source}), Strip(e, {source}), q);
      assert StripAll(es, {source}) == StripAll(init, {source}) + [Strip(e, {source})];
      if e.source == source && e.derivation == Retained {
        TotalSnoc(AlreadyRetained(init, source), e, q);
      } else {
        assert AlreadyRetained(es, source) == AlreadyRetained(init, source);
      }
    }
  }

  /** Weights of the given day, added up. */
  function WeightOn(dayNumbers: seq<int>, weights: seq<int>, day: int): int
    requires |dayNumbers| == |weights|
  {
    if weights == [] then 0
    else
      var n := |weights| - 1;
      WeightOn(dayNumbers[..n], weights[..n], day) + if dayNumbers[n] == day then weights[n] else 0
  }

  lemma {:induction false} ColumnSnoc(rows: seq<Vec>, v: Vec, c: int)
    requires 0 <= c < 4
    ensures Column(rows + [v], c) == Column(rows, c) + v[c]
  {
    if rows == [] {
      assert rows + [v] == [v];
    } else {
      assert (rows + [v])[1..] == rows[1..] + [v];
      ColumnSnoc(rows[1..], v, c);
    }
  }

  lemma EventsOfSnoc(source: string, days: seq<DayComp>)
    requires days != [] && PositiveDays(days)
    ensures var d := days[|days| - 1]; var e := RetainedEvent(source, d.day, d.v);
            EventsOf(source, days) == EventsOf(source, days[..|days| - 1]) + [e]
    ensures PositiveDays(days[..|days| - 1])
  {
  }

  lemma RetainedMeasure(source: string, day: int, v: Vec, q: Query)
    ensures Measure(q, RetainedEvent(source, day, v)) ==
            if source != q.source then 0
            else if q.Component? then (if q.c < 4 then v[q.c] else 0)
            else if q.day == day then Sum4(v) else 0
  {
    NoonOfDay(day);
    assert VecOf(RetainedEvent(source, day, v)) == v;
  }

  lemma {:induction false} EventTotals(source: string, days: seq<DayComp>, s: string, c: nat)
    requires PositiveDays(days) && c < 4
    ensures Total(EventsOf(source, days), Component(s, c)) == if s == source then Column(Vectors(days), c) else 0
  {
    if days != [] {
      var init, d := days[..|days| - 1], days[|days| - 1];
      EventsOfSnoc(source, days);
      EventTotals(source, init, s, c);
      ColumnSnoc(Vectors(init), d.v, c);
      RetainedMeasure(source, d.day, d.v, Component(s, c));
      TotalSnoc(EventsOf(source, init), RetainedEvent(source, d.day, d.v), Component(s, c));
    }
  }

  lemma {:induction false} EventDayTotals(source: string, days: seq<DayComp>, weights: seq<int>, s: string, day: int,
                                          exact: bool)
    requires PositiveDays(days) && |weights| == |days|
    requires forall i :: 0 <= i < |days| ==> Same(exact, Sum4(days[i].v), weights[i])
    ensures Same(exact, Total(EventsOf(source, days), OnDate(s, day)),
                 if s == source then WeightOn(DayList(days), weights, day) else 0)
  {
    if days != [] {
      var n := |days| - 1;
      var init, d := days[..n], days[n];
      EventsOfSnoc(source, days);
      EventDayTotals(source, init, weights[..n], s, day, exact);
      RetainedMeasure(source, d.day, d.v, OnDate(s, day));
      TotalSnoc(EventsOf(source, init), RetainedEvent(source, d.day, d.v), OnDate(s, day));
      assert DayList(days)[..n] == DayList(init);
      if s == source && d.day == day {
        SameSum(exact, Total(EventsOf(source, init), OnDate(s, day)), WeightOn(DayList(init), weights[..n], day),
                Sum4(d.v), weights[n]);
      }
    } else {
      SameSelf(exact, 0, 0);
    }
  }

  lemma {:induction false} TokenSumIsSum(days: seq<DayComp>, weights: seq<int>)
    requires |weights| == |days|
    requires forall i :: 0 <= i < |days| ==> DaySum(days[i].v) == weights[i]
    ensures TokenSum(days) == Wrap(Sum(weights))
    decreases |days|
  {
    if days != [] {
      var n := |days| - 1;
      SumSnoc(weights, n);
      assert weights[..n + 1] == weights;
      TokenSumIsSum(days[..n], weights[..n]);
      WrapAdds(Sum(weights[..n]), weights[n]);
    }
  }

  lemma SplitIsPositive(days: seq<DayComp>, dayNumbers: seq<int>, weights: seq<int>, parts: Vec, exact: bool)
    requires IsSplit(days, dayNumbers, weights, parts, exact)
    ensures PositiveDays(days) && DayList(days) == dayNumbers && TokenSum(days) == Wrap(Sum(weights))
  {
    forall i | 0 <= i < |days| ensures DaySum(days[i].v) == weights[i] > 0 {
      SameRegister(Sum4(days[i].v), weights[i]);
    }
    TokenSumIsSum(days, weights);
  }

  /** What the snapshot says of the source: its vector, or its series on a day. */
  function Promised(q: Query, parts: Vec, dayNumbers: seq<int>, weights: seq<int>): int
    requires |dayNumbers| == |weights|
  {
    match q
    case Component(_, c) => if c < 4 then parts[c] else 0
    case OnDate(_, day) => WeightOn(dayNumbers, weights, day)
  }

  lemma SplitTotals(source: string, days: seq<DayComp>, dayNumbers: seq<int>, weights: seq<int>, parts: Vec, q: Query,
                    exact: bool)
    requires IsSplit(days, dayNumbers, weights, parts, exact) && PositiveDays(days) && DayList(days) == dayNumbers
    requires q.Component? ==> q.c < 4
    ensures q.source == source ==>
              Same(exact, Total(EventsOf(source, days), q), Promised(q, parts, dayNumbers, weights))
    ensures q.source != source ==> Total(EventsOf(source, days), q) == 0
  {
    match q
    case Component(s, c) =>
      EventTotals(source, days, s, c);
    case OnDate(s, day) =>
      EventDayTotals(source, days, weights, s, day, exact);
      OtherSource(source, days, q);
  }

  lemma {:induction false} OtherSource(source: string, days: seq<DayComp>, q: Query)
    requires PositiveDays(days)
    ensures q.source != source ==> Total(EventsOf(source, days), q) == 0
  {
    if days != [] {
      var init, d := days[..|days| - 1], days[|days| - 1];
      EventsOfSnoc(source, days);
      OtherSource(source, init, q);
      RetainedMeasure(source, d.day, d.v, q);
      TotalSnoc(EventsOf(source, init), RetainedEvent(source, d.day, d.v), q);
    }
  }

  lemma AppliedTotals(local: seq<UsageEvent>, source: string, days: seq<DayComp>, q: Query)
    requires source != "" && PositiveDays(days) && days != []
    ensures var kept := EventsOf(source, days);
            Total(ApplyRetained(local, kept), q)
            == Total(if q.source == source then AlreadyRetained(local, source) else local, q) + Total(kept, q)
  {
    var kept := EventsOf(source, days);
    KeptSources(source, days);
    StripTotals(local, source, q);
    TotalConcat(StripAll(local, {source}), kept, q);
  }

  lemma KeptSources(source: string, days: seq<DayComp>)
    requires source != "" && PositiveDays(days) && days != []
    ensures RetainedSources(EventsOf(source, days)) == {source}
  {
    var kept := EventsOf(source, days);
    EventsOfIsReplay(source, days);
    assert kept[0] in kept;
  }

  /** The series value of a day; a day not listed has none. */
  function SeriesOn(dates: seq<Option<int>>, values: seq<int>, day: int): int
    requires |dates| >= |values|
  {
    if values == [] then 0
    else
      var n := |values| - 1;
      SeriesOn(dates, values[..n], day) + if dates[n] == Some(day) then values[n] else 0
  }

  /** The weights of the split are the series. */
  lemma {:induction false} WeightIsSeries(dates: seq<Option<int>>, values: seq<int>, day: int)
    requires |dates| >= |values| && forall i :: 0 <= i < |values| ==> dates[i].Some? && values[i] >= 0
    ensures WeightOn(DaysAt(dates, values), Weights(values), day) == SeriesOn(dates, values, day)
  {
    if values != [] {
      var n := |values| - 1;
      WeightIsSeries(dates, values[..n], day);
      if values[n] > 0 {
        var k := |Weights(values)| - 1;
        assert Weights(values)[..k] == Weights(values[..n]) && DaysAt(dates, values)[..k] == DaysAt(dates, values[..n]);
      } else {
        assert Weights(values) == Weights(values[..n]) && DaysAt(dates, values) == DaysAt(dates, values[..n]);
      }
    }
  }

  /** What the snapshot itself reports. */
  ghost function Reported(q: Query, snap: Snapshot, source: string): int
    requires Splittable(snap, source)
  {
    match q
    case Component(_, c) => if c < 4 then PartsOf(snap, source)[c] else 0
    case OnDate(_, day) => SeriesOn(snap.dates, ValuesOf(snap, source), day)
  }

  /** The whole round trip of a snapshot that was split, stored in an empty chain, read
      back and put in place of local rows: its own vector and its own series come back,
      on top of rows that were retained before, and nothing of the local token rows of
      that source; other sources are untouched. The sums agree up to whole laps of the
      register, and exactly when the snapshot's own totals are inside int64. */
  lemma SnapshotRoundTrip(snap: Snapshot, source: string, days: seq<DayComp>, origin: string, coverage: string, at: int,
                          local: seq<UsageEvent>, q: Query)
    requires source != "" && Splittable(snap, source) && SplitsSnapshot(days, snap, source)
    requires q.Component? ==> q.c < 4
    ensures var out := ApplyRetained(local, Chained(Saved([], origin, coverage, at, EventsOf(source, days)), source));
            if q.source != source then Total(out, q) == Total(local, q)
            else Same(TotalsFit(snap, source), Total(out, q),
                      Total(AlreadyRetained(local, source), q) + Reported(q, snap, source))
  {
    var values := ValuesOf(snap, source);
    WeightsWrapPositive(snap, source);
    SplitRoundTrip(source, days, DaysAt(snap.dates, values), Weights(values), PartsOf(snap, source), origin, coverage,
                   at, local, q, TotalsFit(snap, source));
    PromisedIsReported(snap, source, q);
  }

  lemma SplitRoundTrip(source: string, days: seq<DayComp>, dayNumbers: seq<int>, weights: seq<int>, parts: Vec,
                       origin: string, coverage: string, at: int, local: seq<UsageEvent>, q: Query, exact: bool)
    requires source != "" && IsSplit(days, dayNumbers, weights, parts, exact) && Wrap(Sum(weights)) > 0
    requires q.Component? ==> q.c < 4
    ensures var out := ApplyRetained(local, Chained(Saved([], origin, coverage, at, EventsOf(source, days)), source));
            if q.source != source then Total(out, q) == Total(local, q)
            else Same(exact, Total(out, q),
                      Total(AlreadyRetained(local, source), q) + Promised(q, parts, dayNumbers, weights))
  {
    SplitIsPositive(days, dayNumbers, weights, parts, exact);
    StoreAndReplay(source, days, origin, coverage, at);
    SplitTotals(source, days, dayNumbers, weights, parts, q, exact);
    if q.source == source {
      OwnApplied(source, days, local, q, Promised(q, parts, dayNumbers, weights), exact);
    } else {
      AppliedTotals(local, source, days, q);
    }
  }

  /** Putting the rows of a split in place of local rows. */
  lemma OwnApplied(source: string, days: seq<DayComp>, local: seq<UsageEvent>, q: Query, promised: int, exact: bool)
    requires source != "" && PositiveDays(days) && days != [] && q.source == source
    requires Same(exact, Total(EventsOf(source, days), q), promised)
    ensures Same(exact, Total(ApplyRetained(local, EventsOf(source, days)), q),
                 Total(AlreadyRetained(local, source), q) + promised)
  {
    AppliedTotals(local, source, days, q);
    var laps :| Total(EventsOf(source, days), q) == promised + Round(laps) && (exact ==> laps == 0);
    assert Total(ApplyRetained(local, EventsOf(source, days)), q)
           == Total(AlreadyRetained(local, source), q) + promised + Round(laps);
  }

  lemma WeightsWrapPositive(snap: Snapshot, source: string)
    requires Splittable(snap, source)
    ensures Wrap(Sum(Weights(ValuesOf(snap, source)))) > 0
  {
    WeightsOnly(ValuesOf(snap, source));
  }

  lemma PromisedIsReported(snap: Snapshot, source: string, q: Query)
    requires Splittable(snap, source)
    ensures Promised(q, PartsOf(snap, source), DaysAt(snap.dates, ValuesOf(snap, source)),
                     Weights(ValuesOf(snap, source)))
            == Reported(q, snap, source)
  {
    if q.OnDate? {
      WeightIsSeries(snap.dates, ValuesOf(snap, source), q.day);
    }
  }

  // ---------- the program ----------

  /** EventsFromDays. */
  method EventsFromDays(source: string, days: seq<DayComp>) returns (out: seq<UsageEvent>)
    ensures out == EventsOf(source, days)
  {
    out := [];
    for i := 0 to |days|
      invariant out == EventsOf(source, days[..i])
    {
      assert days[..i + 1][..i] == days[..i];
      if DaySum(days[i].v) == 0 {
        continue;
      }
      out := out + [RetainedEvent(source, days[i].day, days[i].v)];
    }
    assert days[..|days|] == days;
  }

  lemma SourcesSnoc(es: seq<UsageEvent>, e: UsageEvent)
    ensures RetainedSources(es + [e]) == RetainedSources(es) +
            if e.source != "" && e.derivation == Retained then {e.source} else {}
  {
    assert forall x :: x in es + [e] <==> x in es || x == e;
    forall s | s in RetainedSources(es) ensures s in RetainedSources(es + [e]) {
      var x :| x in es && x.source != "" && x.derivation == Retained && x.source == s;
      assert x in es + [e];
    }
  }

  /** ApplyRetainedEvents. */
  method ApplyRetainedEvents(es: seq<UsageEvent>, kept: seq<UsageEvent>) returns (out: seq<UsageEvent>)
    ensures out == ApplyRetained(es, kept)
  {
    var sources: set<string> := {};
    for i := 0 to |kept|
      invariant sources == RetainedSources(kept[..i])
    {
      SourcesSnoc(kept[..i], kept[i]);
      assert kept[..i + 1] == kept[..i] + [kept[i]];
      if kept[i].source != "" && kept[i].derivation == Retained {
        sources := sources + {kept[i].source};
      }
    }
    assert kept[..|kept|] == kept;
    if sources == {} {
      return es;
    }
    out := [];
    for i := 0 to |es|
      invariant out == StripAll(es[..i], sources)
    {
      assert es[..i + 1][..i] == es[..i];
      var e := es[i];
      if e.source in sources && e.derivation != Retained {
        e := e.(counters := Counters(0, 0, 0, 0, e.counters.reasoning), quality := Unset, derivation := Local(""));
      }
      out := out + [e];
    }
    assert es[..|es|] == es;
    out := out + kept;
  }

  method FindRow(agents: seq<Breakdown>, source: string) returns (row: Option<Breakdown>)
    ensures row == RowFor(agents, source)
  {
    for i := 0 to |agents|
      invariant RowFor(agents, source) == RowFor(agents[i..], source)
    {
      if agents[i].id == source {
        return Some(agents[i]);
      }
    }
    return None;
  }

  method FindSeries(series: seq<Series>, source: string) returns (values: Option<seq<int>>)
    ensures values == SeriesFor(series, source)
  {
    for i := 0 to |series|
      invariant SeriesFor(series, source) == SeriesFor(series[i..], source)
    {
      if TokenSeries(series[i], source) {
        return Some(series[i].values);
      }
    }
    return None;
  }

  method CheckContiguous(dates: seq<Option<int>>) returns (ok: bool)
    ensures ok == Contiguous(dates)
  {
    for i := 0 to |dates|
      invariant Contiguous(dates[..i])
    {
      if dates[i] == None {
        return false;
      }
      if i > 0 && dates[i].value != dates[i - 1].value + 1 {
        return false;
      }
      assert forall k :: 0 <= k < i ==> dates[..i][k] == dates[k];
    }
    assert dates[..|dates|] == dates;
    return true;
  }

  /** The loop over the series: positive values, their days, and the sum. */
  method CollectWeights(dates: seq<Option<int>>, values: seq<int>)
    returns (sum: int, weights: seq<int>, days: seq<int>, ok: bool)
    requires |dates| == |values| && forall i :: 0 <= i < |dates| ==> dates[i].Some?
    ensures ok == forall i :: 0 <= i < |values| ==> values[i] >= 0
    ensures ok ==> weights == Weights(values) && days == DaysAt(dates, values) && sum == Wrap(Sum(weights))
  {
    sum, weights, days, ok := 0, [], [], true;
    for i := 0 to |values|
      invariant forall k :: 0 <= k < i ==> values[k] >= 0
      invariant weights == Weights(values[..i]) && days == DaysAt(dates, values[..i]) && sum == Wrap(Sum(weights))
    {
      var v := values[i];
      assert values[..i + 1][..i] == values[..i];
      if v < 0 {
        return sum, weights, days, false;
      }
      WrapAdds(Sum(weights), v);
      sum := Wrap(sum + v);
      if v == 0 {
        continue;
      }
      SumSnoc(weights + [v], |weights|);
      assert (weights + [v])[..|weights|] == weights && (weights + [v])[..|weights| + 1] == weights + [v];
      weights, days := weights + [v], days + [dates[i].value];
    }
    assert values[..|values|] == values;
  }

  /** DaysFromSnapshot, with the point at which the program stops. */
  method DaysFromSnapshot(snap: Snapshot, source: string) returns (r: Split<seq<DayComp>>)
    ensures r == FromSnapshot(snap, source)
  {
    var row := FindRow(snap.agents, source);
    if row == None || !MeasuredAgent(row.value) {
      return Refused;
    }
    var parts := ComponentVector(row.value.totals);
    if parts == None {
      return Refused;
    }
    var values := FindSeries(snap.series, source);
    if values == None || |snap.dates| == 0 || |snap.dates| != |values.value| {
      return Refused;
    }
    var contiguous := CheckContiguous(snap.dates);
    if !contiguous {
      return Refused;
    }
    var sum, weights, dates, clean := CollectWeights(snap.dates, values.value);
    if !clean {
      return Refused;
    }
    WeightsOnly(values.value);
    if sum != row.value.totals.total.value || |dates| == 0 {
      return Refused;
    }
    assert Splittable(snap, source);
    var split := AllocateComponents(weights, parts.value);
    match split
    case Answer(rows) =>
      var days := DaysOfRows(dates, rows, weights, parts.value);
      return Answer(days);
    case Refused =>
      return Refused;
    case ZeroDivisor =>
      return ZeroDivisor;
  }

  /** The positive values carry the whole sum. */
  lemma {:induction false} WeightsOnly(values: seq<int>)
    ensures Positive(Weights(values))
    ensures (forall i :: 0 <= i < |values| ==> values[i] >= 0) ==> Sum(Weights(values)) == Sum(values)
  {
    if values != [] {
      var n := |values| - 1;
      WeightsOnly(values[..n]);
      SumSnoc(values, n);
      assert values[..n + 1] == values;
      if values[n] > 0 {
        var w := Weights(values);
        SumSnoc(w, |w| - 1);
        assert w[..|w| - 1] == Weights(values[..n]) && w[..|w| - 1 + 1] == w;
      } else {
        assert Weights(values) == Weights(values[..n]);
      }
    }
  }

  /** Pairs the rows of the split with their days. */
  method DaysOfRows(dates: seq<int>, rows: seq<Vec>, ghost weights: seq<int>, ghost parts: Vec)
    returns (days: seq<DayComp>)
    requires |dates| == |weights| && Allocate(weights, parts) == Answer(rows)
    ensures |dates| == |rows| && days == Paired(dates, rows)
  {
    SuccessConserves(weights, parts);
    days := [];
    for i := 0 to |dates|
      invariant |days| == i && forall k :: 0 <= k < i ==> days[k] == DayComp(dates[k], rows[k])
    {
      days := days + [DayComp(dates[i], rows[i])];
    }
  }

  lemma {:induction false} VectorsAt(days: seq<DayComp>)
    ensures |Vectors(days)| == |days| && forall i :: 0 <= i < |days| ==> Vectors(days)[i] == days[i].v
  {
    if days != [] {
      VectorsAt(days[..|days| - 1]);
    }
  }

  lemma {:induction false} DaysAtAscend(dates: seq<Option<int>>, values: seq<int>)
    requires |dates| >= |values| && Contiguous(dates)
    ensures var ds := DaysAt(dates, values);
            && (forall i, j :: 0 <= i < j < |ds| ==> ds[i] < ds[j])
            && (values != [] ==> forall i :: 0 <= i < |ds| ==> ds[i] <= dates[|values| - 1].value)
  {
    if values != [] {
      var n := |values| - 1;
      DaysAtAscend(dates, values[..n]);
      assert n > 0 ==> dates[n].value == dates[n - 1].value + 1;
      assert n == 0 ==> DaysAt(dates, values[..n]) == [];
      assert DaysAt(dates, values) == DaysAt(dates, values[..n]) + if values[n] > 0 then [dates[n].value] else [];
    }
  }

  lemma {:induction false} PairedParts(dates: seq<int>, rows: seq<Vec>)
    requires |dates| == |rows|
    ensures Vectors(Paired(dates, rows)) == rows && DayList(Paired(dates, rows)) == dates
    decreases |rows|
  {
    if rows != [] {
      var n := |rows| - 1;
      assert Paired(dates, rows)[..n] == Paired(dates[..n], rows[..n]);
      PairedParts(dates[..n], rows[..n]);
    }
  }

  // ---------- what an answer promises ----------

  /** Every answer splits the vector over the days of positive value, in registers. While the
      totals are inside int64 it splits them in whole numbers, the program never stops, and a
      snapshot whose products fit is answered, by the largest-remainder split. */
  lemma AnswerSplits(snap: Snapshot, source: string)
    requires Splittable(snap, source) && Int64s(snap, source)
    ensures var r, weights := FromSnapshot(snap, source), Weights(ValuesOf(snap, source));
            && (r.Answer? ==> SplitsSnapshot(r.value, snap, source))
            && (TotalsFit(snap, source) ==> r != ZeroDivisor)
            && (TotalsFit(snap, source) && ProductsFit(weights, PartsOf(snap, source)) ==>
                  r.Answer? && Apportioned(Vectors(r.value), weights, PartsOf(snap, source)))
  {
    var weights, parts := Weights(ValuesOf(snap, source)), PartsOf(snap, source);
    var r := FromSnapshot(snap, source);
    WeightsOnly(ValuesOf(snap, source));
    SumPositive(weights);
    if TotalsFit(snap, source) {
      DivisorIsNeverZero(weights, parts);
      if ProductsFit(weights, parts) {
        AllocateNeverFails(weights, parts);
      }
    }
    if r.Answer? {
      var rows := Allocate(weights, parts).value;
      SuccessConserves(weights, parts);
      RowsFit(weights, parts);
      PairedParts(DaysAt(snap.dates, ValuesOf(snap, source)), rows);
      WeightsAreValues(ValuesOf(snap, source));
      SplitIsSplit(snap.dates, ValuesOf(snap, source), r.value, rows, parts, TotalsFit(snap, source));
    }
  }

  lemma {:induction false} WeightsAreValues(values: seq<int>)
    ensures forall i :: 0 <= i < |Weights(values)| ==> Weights(values)[i] in values
  {
    if values != [] {
      var n := |values| - 1;
      WeightsAreValues(values[..n]);
      assert values == values[..n] + [values[n]];
    }
  }

  lemma SplitIsSplit(dates: seq<Option<int>>, values: seq<int>, days: seq<DayComp>, rows: seq<Vec>, parts: Vec,
                     exact: bool)
    requires |dates| == |values| && Contiguous(dates)
    requires Positive(Weights(values)) && |Weights(values)| > 0
    requires forall i :: 0 <= i < |Weights(values)| ==> Weights(values)[i] <= MAX
    requires Agrees(rows, Weights(values), parts) && (exact ==> Conserved(rows, Weights(values), parts))
    requires forall i :: 0 <= i < |rows| ==> InInt64(rows[i])
    requires |days| == |rows| && Vectors(days) == rows && DayList(days) == DaysAt(dates, values)
    ensures IsSplit(days, DaysAt(dates, values), Weights(values), parts, exact)
  {
    VectorsAt(days);
    DaysAtAscend(dates, values);
    forall i | 0 <= i < |days| ensures Same(exact, Sum4(days[i].v), Weights(values)[i]) {
      SameNumber(exact, Sum4(days[i].v), Weights(values)[i]);
    }
    forall c | 0 <= c < 4 ensures Same(exact, Column(Vectors(days), c), parts[c]) {
      SameNumber(exact, Column(Vectors(days), c), parts[c]);
    }
  }

  lemma SameNumber(exact: bool, a: int, b: int)
    requires Wrap(a) == Wrap(b) && (exact ==> a == b)
    ensures Same(exact, a, b)
  {
    if exact {
      SameSelf(exact, a, b);
    } else {
      SameRegister(a, b);
    }
  }

  // ---------- the snapshots on which the program stops ----------

  /** A snapshot whose true daily values sum to `sum` divides by zero. */
  ghost predicate StopsAt(snap: Snapshot, source: string, sum: int) {
    && Splittable(snap, source) && Sum(ValuesOf(snap, source)) == sum
    && (forall v :: v in ValuesOf(snap, source) ==> v <= MAX) && InInt64(PartsOf(snap, source))
    && FromSnapshot(snap, source) == ZeroDivisor
  }

  /** Some snapshot with this sum divides by zero exactly when the sum is at least one
      lap of the register and its wrapped value, the total, is positive. */
  lemma StopsIff(source: string, sum: int)
    ensures (exists snap :: StopsAt(snap, source, sum)) <==> sum >= SPAN && Wrap(sum) > 0
  {
    forall snap | StopsAt(snap, source, sum)
      ensures sum >= SPAN && Wrap(sum) > 0
    {
      StopNeedsALap(snap, source, sum);
    }
    if sum >= SPAN && Wrap(sum) > 0 {
      SplitIntoLaps(sum);
      LapsStop(source, Wrap(sum), sum / SPAN, sum);
    }
  }

  lemma StopNeedsALap(snap: Snapshot, source: string, sum: int)
    requires StopsAt(snap, source, sum)
    ensures sum >= SPAN && Wrap(sum) > 0
  {
    WeightsOnly(ValuesOf(snap, source));
    if sum < SPAN {
      DivisorIsNeverZero(Weights(ValuesOf(snap, source)), PartsOf(snap, source));
    }
  }

  lemma LapsStop(source: string, ones: nat, laps: nat, sum: int)
    requires 0 < ones <= MAX && laps > 0 && sum == ones + SPAN * laps
    ensures exists snap :: StopsAt(snap, source, sum)
  {
    LapsDivideByZero(ones, laps);
    LapsAreInput(ones, laps);
    AllPositive(Laps(ones, laps));
    StopsLikeSplit(source, Laps(ones, laps), [ones, 0, 0, 0], ones);
    assert StopsAt(SnapshotOf(source, Laps(ones, laps), [ones, 0, 0, 0], ones), source, sum);
  }

  function RowOf(source: string, parts: Vec, total: int): Breakdown {
    var totals := Totals(Some(parts[0]), Some(parts[1]), Some(parts[2]), Some(parts[3]), Some(total), Available);
    Breakdown(source, totals, Coverage(Available, false, None, NoReason))
  }

  function FirstDays(n: nat): (dates: seq<Option<int>>)
    ensures |dates| == n && Contiguous(dates)
  {
    seq(n, i => Some(i))
  }

  /** A snapshot with these daily values, this vector and this total. */
  function SnapshotOf(source: string, values: seq<int>, parts: Vec, total: int): Snapshot {
    Snapshot("", Some(0), Some(0), Available, Some(total), [RowOf(source, parts, total)], FirstDays(|values|),
             [Series(source, TOKENS, values)])
  }

  lemma SnapshotOfValues(source: string, values: seq<int>, parts: Vec, total: int)
    requires NotNegative(values) && Weights(values) != [] && NonNegative(parts)
    requires Wrap(Sum4(parts)) == Wrap(Sum(values)) == total > 0
    ensures var snap := SnapshotOf(source, values, parts, total);
            Splittable(snap, source) && ValuesOf(snap, source) == values && PartsOf(snap, source) == parts
  {
    RowOfParts(source, parts, total);
    IsSplittable(SnapshotOf(source, values, parts, total), source, RowOf(source, parts, total), parts, values);
  }

  ghost predicate NotNegative(values: seq<int>) {
    forall i :: 0 <= i < |values| ==> values[i] >= 0
  }

  lemma IsSplittable(snap: Snapshot, source: string, row: Breakdown, parts: Vec, values: seq<int>)
    requires RowFor(snap.agents, source) == Some(row) && MeasuredAgent(row)
    requires ComponentVector(row.totals) == Some(parts) && SeriesFor(snap.series, source) == Some(values)
    requires 0 < |snap.dates| == |values| && Contiguous(snap.dates) && Weights(values) != []
    requires NotNegative(values) && Wrap(Sum(values)) == Wrap(Sum4(parts))
    ensures Splittable(snap, source) && ValuesOf(snap, source) == values && PartsOf(snap, source) == parts
  {
  }

  lemma RowOfParts(source: string, parts: Vec, total: int)
    requires NonNegative(parts) && Wrap(Sum4(parts)) == total > 0
    ensures var row := RowOf(source, parts, total);
            RowFor([row], source) == Some(row) && MeasuredAgent(row) && ComponentVector(row.totals) == Some(parts)
  {
    assert [parts[0], parts[1], parts[2], parts[3]] == parts;
  }

  lemma {:induction false} AllPositive(values: seq<int>)
    requires Positive(values)
    ensures Weights(values) == values
  {
    if values != [] {
      AllPositive(values[..|values| - 1]);
    }
  }

  lemma StopsLikeSplit(source: string, values: seq<int>, parts: Vec, total: int)
    requires NotNegative(values) && Weights(values) != [] && NonNegative(parts)
    requires Wrap(Sum4(parts)) == Wrap(Sum(values)) == total > 0 && Allocate(Weights(values), parts) == ZeroDivisor
    ensures var snap := SnapshotOf(source, values, parts, total);
            Splittable(snap, source) && FromSnapshot(snap, source) == ZeroDivisor
            && ValuesOf(snap, source) == values && PartsOf(snap, source) == parts
  {
    SnapshotOfValues(source, values, parts, total);
  }

  // ---------- within the days of a wall ----------

  /** The days a stored snapshot lists. */
  const WALL_DAYS: nat := 371

  lemma {:induction false} ZerosWeighNothing(weights: seq<int>, n: nat)
    requires Positive(weights)
    ensures Weights(weights + Repeat(0, n)) == weights
    decreases n
  {
    if n == 0 {
      AllPositive(weights);
      assert weights + Repeat(0, 0) == weights;
    } else {
      ZeroAtEnd(weights, n);
      ZerosWeighNothing(weights, n - 1);
    }
  }

  lemma {:induction false} ZerosAddNothing(weights: seq<int>, n: nat)
    ensures Sum(weights + Repeat(0, n)) == Sum(weights)
    decreases n
  {
    if n == 0 {
      assert weights + Repeat(0, 0) == weights;
    } else {
      var values := weights + Repeat(0, n);
      ZeroAtEnd(weights, n);
      ZerosAddNothing(weights, n - 1);
      SumSnoc(values, |values| - 1);
      assert values[..|values| - 1 + 1] == values;
    }
  }

  lemma ZeroAtEnd(weights: seq<int>, n: nat)
    requires n > 0
    ensures var values := weights + Repeat(0, n);
            values[..|values| - 1] == weights + Repeat(0, n - 1) && values[|values| - 1] == 0
  {
  }

  /** One day of t tokens, whole laps of 2^62, and no tokens on the other days. */
  function WallSeries(t: int, laps: nat): seq<int>
    requires 4 * laps < WALL_DAYS
  {
    BulkDays(t, laps) + Repeat(0, WALL_DAYS - 1 - 4 * laps)
  }

  /** A snapshot of the full 371 days divides by zero for every total whose square is inside
      int64 and every number of laps that the days can hold. */
  lemma WallSeriesStops(source: string, t: int, laps: nat)
    requires 0 < t <= MAX && t * t <= MAX && 0 < laps && 4 * laps < WALL_DAYS
    ensures var snap := SnapshotOf(source, WallSeries(t, laps), [t, 0, 0, 0], t);
            |snap.dates| == WALL_DAYS && StopsAt(snap, source, t + SPAN * laps)
  {
    WallSeriesValues(t, laps);
    BulkReachesZero(t, laps);
    WholeLaps(t, laps);
    StopsLikeSplit(source, WallSeries(t, laps), [t, 0, 0, 0], t);
  }

  lemma WallSeriesValues(t: int, laps: nat)
    requires 0 < t <= MAX && 4 * laps < WALL_DAYS
    ensures Weights(WallSeries(t, laps)) == BulkDays(t, laps) && Sum(WallSeries(t, laps)) == t + SPAN * laps
    ensures |WallSeries(t, laps)| == WALL_DAYS && NotNegative(WallSeries(t, laps))
    ensures forall v :: v in WallSeries(t, laps) ==> v <= MAX
  {
    BulkSum(t, laps);
    ZerosWeighNothing(BulkDays(t, laps), WALL_DAYS - 1 - 4 * laps);
    ZerosAddNothing(BulkDays(t, laps), WALL_DAYS - 1 - 4 * laps);
  }

  /** Five tokens, and four days of 2^62 whose sum the register does not notice. */
  lemma LongSeriesStops(source: string)
    ensures var snap := SnapshotOf(source, WallSeries(5, 1), [5, 0, 0, 0], 5);
            |snap.dates| == WALL_DAYS && Splittable(snap, source) && FromSnapshot(snap, source) == ZeroDivisor
  {
    WallSeriesStops(source, 5, 1);
  }
}
