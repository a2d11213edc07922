/** The observation tables of internal/ledger/observe.go as an object: its methods insert
    and replay dated account observations, proved against the functions of
    Observations, Supplements and Retain. */
module ObservationDb {
  import opened Apportion
  import opened Events
  import opened Int64
  import opened Observations
  import opened SortedDays
  import opened Supplements
  import opened Wrappers
  import R = Retain

  /** Deletes the days of a window while walking over the map. */
  method ClearWindow(m: map<int, Vec>, first: int, last: int) returns (days: map<int, Vec>)
    ensures days == map d | d in m && !(first <= d <= last) :: m[d]
  {
    days := m;
    var pending := m.Keys;
    while pending != {}
      invariant pending <= m.Keys
      invariant days == map d | d in m && (d in pending || !(first <= d <= last)) :: m[d]
      decreases |pending|
    {
      NotEmpty(pending);
      var day :| day in pending;
      pending := pending - {day};
      if first <= day <= last {
        days := days - {day};
      }
    }
  }

  method WriteDays(m: map<int, Vec>, rows: seq<DayComp>) returns (days: map<int, Vec>)
    ensures days == WriteRows(m, rows)
  {
    days := m;
    for i := 0 to |rows|
      invariant days == WriteRows(m, rows[..i])
    {
      assert rows[..i + 1][..i] == rows[..i];
      if DaySum(rows[i].v) == 0 {
        continue;
      }
      days := days[rows[i].day := rows[i].v];
    }
    assert rows[..|rows|] == rows;
  }

  /** chainDayMap: deletes what a window covers, then writes its days. */
  method ChainDayMap(obs: seq<Observation>) returns (days: map<int, Vec>)
    ensures days == Chain(obs)
  {
    days := map[];
    for i := 0 to |obs|
      invariant days == Chain(obs[..i])
    {
      var ob := obs[i];
      ghost var before := days;
      assert obs[..i + 1][..i] == obs[..i];
      if ob.from.Some? && ob.to.Some? && ob.from.value <= ob.to.value {
        days := ClearWindow(days, ob.from.value, ob.to.value);
      }
      assert days == Uncovered(before, ob);
      days := WriteDays(days, ob.days);
    }
    assert obs[..|obs|] == obs;
  }

  /** groupDays. */
  method GroupByDay(es: seq<UsageEvent>) returns (rows: seq<DayComp>)
    ensures rows == GroupDays(es)
  {
    var totals: map<int, Vec> := map[];
    for i := 0 to |es|
      invariant totals == ByDay(es[..i])
    {
      assert es[..i + 1][..i] == es[..i];
      totals := AddToDay(totals, es[i]);
    }
    assert es[..|es|] == es;
    rows := RowsInOrder(totals);
  }

  method RowsInOrder(totals: map<int, Vec>) returns (rows: seq<DayComp>)
    ensures rows == RowsOf(totals)
  {
    var ks := SortDays(totals.Keys);
    SortedIsOrder(totals.Keys);
    rows := [];
    for i := 0 to |ks|
      invariant |rows| == i && forall k :: 0 <= k < i ==> rows[k] == DayComp(ks[k], totals[ks[k]])
    {
      rows := rows + [DayComp(ks[i], totals[ks[i]])];
    }
  }

  lemma KeepInsideSnoc(days: seq<DayComp>, i: nat, first: int, last: int)
    requires i < |days|
    ensures KeepInside(days[..i + 1], first, last) ==
            KeepInside(days[..i], first, last) +
              if first <= days[i].day <= last && DaySum(days[i].v) != 0 then [days[i]] else []
  {
    assert days[..i + 1][..i] == days[..i];
  }

  lemma TokenSumSnoc(days: seq<DayComp>, d: DayComp)
    ensures TokenSum(days + [d]) == Wrap(TokenSum(days) + DaySum(d.v))
  {
    assert (days + [d])[..|days|] == days;
  }

  /** The rows a window note keeps, and their token sum. */
  method KeepRows(days: seq<DayComp>, first: int, last: int) returns (kept: seq<DayComp>, tokens: int)
    ensures kept == KeepInside(days, first, last) && tokens == TokenSum(kept)
  {
    kept, tokens := [], 0;
    for i := 0 to |days|
      invariant kept == KeepInside(days[..i], first, last) && tokens == TokenSum(kept)
    {
      KeepInsideSnoc(days, i, first, last);
      var d := days[i];
      var sum := DaySum(d.v);
      if d.day < first || d.day > last || sum == 0 {
        continue;
      }
      TokenSumSnoc(kept, d);
      tokens, kept := Wrap(tokens + sum), kept + [d];
    }
    assert days[..|days|] == days;
  }

  method AddTokens(days: seq<DayComp>) returns (tokens: int)
    ensures tokens == TokenSum(days)
  {
    tokens := 0;
    for i := 0 to |days|
      invariant tokens == TokenSum(days[..i])
    {
      assert days[..i + 1][..i] == days[..i];
      tokens := Wrap(tokens + DaySum(days[i].v));
    }
    assert days[..|days|] == days;
  }

  /** The days a source already has on the events of a scan. */
  method CollectHave(source: string, already: seq<UsageEvent>) returns (have: set<int>)
    ensures have == HaveDays(source, already)
  {
    have := {};
    for i := 0 to |already|
      invariant have == HaveDays(source, already[..i])
    {
      var e := already[i];
      assert already[..i + 1] == already[..i] + [e];
      if e.source != source || e.ts == ZERO_TIME || (e.derivation != ProviderApi && e.derivation != Retained) {
        continue;
      }
      have := have + {DayOf(e.ts)};
    }
    assert already[..|already|] == already;
  }

  /** The chained days that are neither present nor fetched, in order. */
  method CollectEligible(chain: map<int, Vec>, have: set<int>, fetched: seq<DayRange>) returns (keys: seq<int>)
    ensures keys == Sorted(Eligible(chain, have, fetched))
  {
    var found: set<int> := {};
    var pending := chain.Keys;
    while pending != {}
      invariant pending <= chain.Keys
      invariant found == set d | d in chain && d !in pending && d !in have && !DayInside(d, fetched)
                && DaySum(chain[d]) != 0
      decreases |pending|
    {
      NotEmpty(pending);
      var day :| day in pending;
      pending := pending - {day};
      if day in have || DayInside(day, fetched) || DaySum(chain[day]) == 0 {
        continue;
      }
      found := found + {day};
    }
    assert found == Eligible(chain, have, fetched);
    keys := SortDays(found);
  }

  method FinishedWindows(obs: seq<Observation>) returns (out: seq<DayRange>)
    ensures out == Finished(obs)
  {
    out := [];
    for i := 0 to |obs|
      invariant out == Finished(obs[..i])
    {
      assert obs[..i + 1][..i] == obs[..i];
      var ob := obs[i];
      if ob.origin != "api" || ob.coverage != "window" || ob.from.None? || ob.to.None? || ob.from.value > ob.to.value {
        continue;
      }
      out := out + [DayRange(ob.from, ob.to)];
    }
    assert obs[..|obs|] == obs;
  }

  method MakeEvents(source: string, chain: map<int, Vec>, keys: seq<int>, lookback: DayRange, finished: seq<DayRange>)
    returns (out: seq<UsageEvent>)
    requires forall d :: d in keys ==> d in chain
    ensures out == DayEvents(source, chain, keys, lookback, finished)
  {
    out := [];
    for i := 0 to |keys|
      invariant |out| == i
      invariant forall k :: 0 <= k < i ==> out[k] == DayEvent(source, keys[k], chain[keys[k]], lookback, finished)
    {
      out := out + [DayEvent(source, keys[i], chain[keys[i]], lookback, finished)];
    }
  }

  // ---------- fresh account rows ----------

  function FreshSources(es: seq<UsageEvent>): set<string> {
    set e | e in es && e.derivation == ProviderApi && e.source != "" :: e.source
  }

  method CollectFresh(es: seq<UsageEvent>, source: string) returns (pulled: seq<UsageEvent>)
    ensures pulled == Fresh(es, source)
  {
    pulled := [];
    for i := 0 to |es|
      invariant pulled == Fresh(es[..i], source)
    {
      assert es[..i + 1][..i] == es[..i];
      if es[i].derivation == ProviderApi && es[i].source == source {
        pulled := pulled + [es[i]];
      }
    }
    assert es[..|es|] == es;
  }

  method FindFirstDay(pulled: seq<UsageEvent>) returns (first: Option<int>)
    ensures first == FirstDay(pulled)
  {
    first := None;
    for i := 0 to |pulled|
      invariant first == FirstDay(pulled[..i])
    {
      assert pulled[..i + 1][..i] == pulled[..i];
      if pulled[i].ts == ZERO_TIME {
        continue;
      }
      if first.None? || DayOf(pulled[i].ts) < first.value {
        first := Some(DayOf(pulled[i].ts));
      }
    }
    assert pulled[..|pulled|] == pulled;
  }

  method CollectEarlier(chain: map<int, Vec>, have: set<int>, first: int) returns (keys: seq<int>)
    ensures keys == Sorted(Earlier(chain, have, first))
  {
    var found: set<int> := {};
    var pending := chain.Keys;
    while pending != {}
      invariant pending <= chain.Keys
      invariant found == set d | d in chain && d !in pending && d < first && d !in have && DaySum(chain[d]) != 0
      decreases |pending|
    {
      NotEmpty(pending);
      var day :| day in pending;
      pending := pending - {day};
      if day >= first || day in have || DaySum(chain[day]) == 0 {
        continue;
      }
      found := found + {day};
    }
    assert found == Earlier(chain, have, first);
    keys := SortDays(found);
  }

  /** The rows that are written beside an observation. */
  method DropZero(days: seq<DayComp>) returns (kept: seq<DayComp>)
    ensures kept == NonZero(days)
  {
    kept := [];
    for i := 0 to |days|
      invariant kept == NonZero(days[..i])
    {
      assert days[..i + 1][..i] == days[..i];
      if DaySum(days[i].v) == 0 {
        continue;
      }
      kept := kept + [days[i]];
    }
    assert days[..|days|] == days;
  }

  /** Every source with a fetched account row, once. */
  ghost predicate EachSourceOnce(order: seq<string>, es: seq<UsageEvent>) {
    && Distinct(order)
    && forall s :: s in order <==> s != "" && exists e :: e in es && e.derivation == ProviderApi && e.source == s
  }

  lemma FreshAreSources(es: seq<UsageEvent>, order: seq<string>)
    requires OrderOf(order, FreshSources(es))
    ensures EachSourceOnce(order, es)
  {
    forall s
      ensures s in FreshSources(es) <==> s != "" && exists e :: e in es && e.derivation == ProviderApi && e.source == s
    {
    }
  }

  /** One pass over every account source of the scan, in some order. */
  ghost predicate OrderOf(sources: seq<string>, all: set<string>) {
    Distinct(sources) && forall s :: s in sources <==> s in all
  }

  /** One more source, in whatever order. */
  lemma NarrowStep(tables: map<string, seq<Observation>>, es: seq<UsageEvent>, order: seq<string>, pending: set<string>,
                   source: string)
    requires pending <= FreshSources(es) && source in pending && OrderOf(order, FreshSources(es) - pending)
    ensures OrderOf(order + [source], FreshSources(es) - (pending - {source}))
    ensures Narrowed(tables, es, order + [source])
            == Narrowed(tables, es, order) + BeforeFresh(TableOf(tables, source), source, es)
  {
    assert (order + [source])[..|order|] == order;
    assert FreshSources(es) - pending + {source} == FreshSources(es) - (pending - {source});
  }

  lemma NoteLastWord(table: seq<Observation>, first: int, last: int, at: int, es: seq<UsageEvent>)
    requires first <= last && WindowsFiled(table)
    ensures var note := WindowNote(first, last, at, es);
            Stored(table, note.content) || NotBefore(table, at) ==>
              (Shows(Insert(table, note), first, last, es) <==> HasLastWord(table, first, last, note.content, es))
  {
    if Stored(table, WindowNote(first, last, at, es).content) || NotBefore(table, at) {
      NoteHoldsIff(table, first, last, at, es);
    }
  }

  class ObservationLog {
    /** api_observations with its days: one table per source, in insertion order. */
    var tables: map<string, seq<Observation>>

    /** Every stored window carries the span and the days its content was made from. */
    ghost predicate Valid()
      reads this
    {
      forall source :: source in tables ==> WindowsFiled(tables[source])
    }

    constructor ()
      ensures Valid() && tables == map[]
    {
      tables := map[];
    }

    /** insertObservation: a stored content is left alone, days and all. */
    method InsertObservation(source: string, ob: Observation)
      modifies this
      ensures tables == old(tables)[source := Insert(TableOf(old(tables), source), ob)]
      ensures old(Valid()) && WindowFiled(ob) && (ob.content.WindowRows? ==> NonZero(ob.days) == ob.days) ==> Valid()
    {
      if Valid() && WindowFiled(ob) && (ob.content.WindowRows? ==> NonZero(ob.days) == ob.days) {
        StoringKeepsFiled(TableOf(tables, source), ob);
      }
      var table := TableOf(tables, source);
      if Stored(table, ob.content) {
        assert source in tables;
        return;
      }
      var kept := DropZero(ob.days);
      tables := tables[source := table + [ob.(days := kept)]];
    }

    /** A finished window, measured-empty included; commits is whether the transaction did.
        A note no older than the table shows on its whole window exactly when it has the
        last word. */
    method NoteCoveredWindow(source: string, from: Option<int>, to: Option<int>, at: int, es: seq<UsageEvent>,
                             commits: bool)
      returns (ok: bool)
      requires Valid()
      modifies this
      ensures Valid()
      ensures ok == (source != "" && from.Some? && to.Some? && from.value <= to.value && commits)
      ensures ok ==>
              var note := WindowNote(from.value, to.value, at, es);
              tables == old(tables)[source := Insert(TableOf(old(tables), source), note)]
      ensures ok ==>
              var was, content := TableOf(old(tables), source), WindowNote(from.value, to.value, at, es).content;
              Stored(was, content) || NotBefore(was, at) ==>
                (Shows(TableOf(tables, source), from.value, to.value, es)
                 <==> HasLastWord(was, from.value, to.value, content, es))
      ensures !ok ==> tables == old(tables)
    {
      if source == "" || from.None? || to.None? || from.value > to.value {
        return false;
      }
      var days := GroupByDay(es);
      var kept, tokens := KeepRows(days, from.value, to.value);
      if !commits {
        return false;
      }
      NoteIsFiled(from.value, to.value, at, es);
      NoteLastWord(TableOf(tables, source), from.value, to.value, at, es);
      InsertObservation(source,
                        Observation(WindowRows(from.value, to.value, kept), tokens, at, from, to, "window", "api",
                                    kept));
      return true;
    }

    /** One confirmed observation. An incomplete call is an error, a batch that measured
        nothing is stored as nothing. */
    method SaveObservation(source: string, origin: string, coverage: string, at: int, es: seq<UsageEvent>,
                           commits: bool)
      returns (ok: bool)
      requires Valid()
      modifies this
      ensures Valid()
      ensures source == "" || origin == "" || coverage == "" || at == ZERO_TIME ==> !ok
      ensures source != "" && origin != "" && coverage != "" && at != ZERO_TIME && commits ==> ok
      ensures TableOf(tables, source) == if ok then Saved(TableOf(old(tables), source), origin, coverage, at, es)
                                         else TableOf(old(tables), source)
      ensures forall s :: s != source ==> TableOf(tables, s) == TableOf(old(tables), s)
    {
      if source == "" || origin == "" || coverage == "" || at == ZERO_TIME {
        return false;
      }
      var days := GroupByDay(es);
      if |days| == 0 {
        return true;
      }
      var tokens := AddTokens(days);
      if tokens <= 0 {
        return true;
      }
      if !commits {
        return false;
      }
      InsertObservation(source,
                        Observation(DayRows(days), tokens, at, Some(days[0].day), Some(days[|days| - 1].day),
                                    coverage, origin, days));
      return true;
    }

    method AccountSupplement(source: string, lookback: DayRange, fetched: seq<DayRange>, already: seq<UsageEvent>)
      returns (out: seq<UsageEvent>)
      ensures out == Supplement(TableOf(tables, source), source, lookback, fetched, already)
    {
      if source == "" {
        return [];
      }
      var have := CollectHave(source, already);
      var obs := Asc(TableOf(tables, source));
      var finished := FinishedWindows(obs);
      var chain := ChainDayMap(obs);
      var keys := CollectEligible(chain, have, fetched);
      SortedIsOrder(Eligible(chain, have, fetched));
      out := MakeEvents(source, chain, keys, lookback, finished);
    }

    /** DaysOutside knows no lookback: every day comes back as retained. */
    method DaysOutside(source: string, ranges: seq<DayRange>, already: seq<UsageEvent>) returns (out: seq<UsageEvent>)
      ensures out == Supplement(TableOf(tables, source), source, NO_RANGE, ranges, already)
    {
      if source == "" {
        return [];
      }
      var have := CollectHave(source, already);
      var obs := Asc(TableOf(tables, source));
      var chain := ChainDayMap(obs);
      var keys := CollectEligible(chain, have, ranges);
      SortedIsOrder(Eligible(chain, have, ranges));
      out := MakeEvents(source, chain, keys, NO_RANGE, []);
      assert out == DayEvents(source, chain, keys, NO_RANGE, Finished(obs));
    }

    /** Every stored day of a source; ok is false when there is none. */
    method ChainedRetainedEvents(source: string) returns (out: seq<UsageEvent>, ok: bool)
      ensures out == R.Chained(TableOf(tables, source), source) && ok == (out != [])
    {
      if source == "" {
        return [], false;
      }
      var obs := Asc(TableOf(tables, source));
      var chain := ChainDayMap(obs);
      assert HaveDays(source, []) == {};
      var keys := CollectEligible(chain, {}, []);
      SortedIsOrder(Eligible(chain, {}, []));
      out := MakeEvents(source, chain, keys, NO_RANGE, []);
      assert out == DayEvents(source, chain, keys, NO_RANGE, Finished(obs));
      ok := |out| != 0;
    }

    method DaysBeforeFresh(source: string, es: seq<UsageEvent>, pulled: seq<UsageEvent>) returns (out: seq<UsageEvent>)
      requires pulled == Fresh(es, source)
      ensures out == BeforeFresh(TableOf(tables, source), source, es)
    {
      var first := FindFirstDay(pulled);
      if first == None {
        return [];
      }
      var chain := ChainDayMap(Asc(Except(TableOf(tables, source), ApiContent(pulled))));
      var have := CollectHave(source, es);
      var keys := CollectEarlier(chain, have, first.value);
      SortedIsOrder(Earlier(chain, have, first.value));
      out := MakeEvents(source, chain, keys, NO_RANGE, []);
    }

    /** SupplementNarrowWindow: the earlier days of every account source, once each. */
    method SupplementNarrowWindow(es: seq<UsageEvent>) returns (out: seq<UsageEvent>)
      ensures exists order :: EachSourceOnce(order, es) && out == Narrowed(tables, es, order)
    {
      out := es;
      ghost var order: seq<string> := [];
      var pending := FreshSources(es);
      while pending != {}
        invariant pending <= FreshSources(es)
        invariant OrderOf(order, FreshSources(es) - pending) && out == Narrowed(tables, es, order)
        decreases |pending|
      {
        assert (forall s :: s !in pending) ==> pending == {};
        var source :| source in pending;
        NarrowStep(tables, es, order, pending, source);
        pending := pending - {source};
        var pulled := CollectFresh(es, source);
        var extra := DaysBeforeFresh(source, es, pulled);
        out, order := out + extra, order + [source];
      }
      assert FreshSources(es) - {} == FreshSources(es);
      FreshAreSources(es, order);
    }
  }
}
