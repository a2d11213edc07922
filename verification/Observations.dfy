/** Model of internal/ledger/observe.go: dated account observations, kept whole, folded
    into one value per day, and replayed beside a scan. */
module Observations {
  import opened Apportion
  import opened Clock
  import opened Events
  import opened Int64
  import opened SortedDays
  import opened Wrappers

  /** One day of one observation. */
  datatype DayComp = DayComp(day: int, v: Vec)

  /** The text an observation is hashed from. The hash is taken as injective. */
  datatype Content = ApiRows(rows: multiset<(string, int, Vec)>)
                   | DayRows(days: seq<DayComp>)
                   | WindowRows(first: int, last: int, days: seq<DayComp>)

  /** One row of api_observations with its api_observation_days. `from` and `to` are
      None when the column is empty. */
  datatype Observation = Observation(content: Content, tokens: int, at: int, from: Option<int>, to: Option<int>,
                                     coverage: string, origin: string, days: seq<DayComp>)

  /** The sum of the four components, as a machine adds them. */
  function DaySum(v: Vec): int {
    Wrap(Sum4(v))
  }

  // ---------- storing ----------

  predicate Stored(table: seq<Observation>, content: Content) {
    exists k :: 0 <= k < |table| && table[k].content == content
  }

  function NonZero(days: seq<DayComp>): seq<DayComp> {
    if days == [] then []
    else
      var last := days[|days| - 1];
      NonZero(days[..|days| - 1]) + if DaySum(last.v) == 0 then [] else [last]
  }

  /** INSERT OR IGNORE on the content: a known content writes nothing at all. */
  function Insert(table: seq<Observation>, ob: Observation): seq<Observation> {
    if Stored(table, ob.content) then table else table + [ob.(days := NonZero(ob.days))]
  }

  // ---------- reading in time order ----------

  function InsertByTime(sorted: seq<Observation>, ob: Observation): seq<Observation> {
    if sorted == [] then [ob]
    else if sorted[|sorted| - 1].at <= ob.at then sorted + [ob]
    else InsertByTime(sorted[..|sorted| - 1], ob) + [sorted[|sorted| - 1]]
  }

  /** ORDER BY observed_at, rowid. */
  function Asc(table: seq<Observation>): seq<Observation> {
    if table == [] then [] else InsertByTime(Asc(table[..|table| - 1]), table[|table| - 1])
  }

  ghost predicate NotBefore(table: seq<Observation>, at: int) {
    forall k :: 0 <= k < |table| ==> table[k].at <= at
  }

  lemma {:induction false} InsertByTimeMembers(sorted: seq<Observation>, ob: Observation, at: int)
    ensures NotBefore(sorted, at) && ob.at <= at ==> NotBefore(InsertByTime(sorted, ob), at)
  {
    if sorted != [] && sorted[|sorted| - 1].at > ob.at {
      InsertByTimeMembers(sorted[..|sorted| - 1], ob, at);
    }
  }

  lemma {:induction false} AscNotBefore(table: seq<Observation>, at: int)
    requires NotBefore(table, at)
    ensures NotBefore(Asc(table), at)
  {
    if table != [] {
      AscNotBefore(table[..|table| - 1], at);
      InsertByTimeMembers(Asc(table[..|table| - 1]), table[|table| - 1], at);
    }
  }

  /** The newest observation is read last. */
  lemma AscAppends(table: seq<Observation>, ob: Observation)
    requires NotBefore(table, ob.at)
    ensures Asc(table + [ob]) == Asc(table) + [ob]
  {
    AscNotBefore(table, ob.at);
    assert (table + [ob])[..|table|] == table;
  }

  // ---------- the fold ----------

  predicate Covers(ob: Observation, day: int) {
    ob.from.Some? && ob.to.Some? && ob.from.value <= day <= ob.to.value
  }

  /** The last non-zero row of a day. */
  function RowOf(days: seq<DayComp>, day: int): Option<Vec> {
    if days == [] then None
    else
      var last := days[|days| - 1];
      if last.day == day && DaySum(last.v) != 0 then Some(last.v) else RowOf(days[..|days| - 1], day)
  }

  function WriteRows(m: map<int, Vec>, days: seq<DayComp>): map<int, Vec> {
    if days == [] then m
    else
      var last := days[|days| - 1];
      var before := WriteRows(m, days[..|days| - 1]);
      if DaySum(last.v) == 0 then before else before[last.day := last.v]
  }

  function Fold(m: map<int, Vec>, ob: Observation): map<int, Vec> {
    WriteRows(Uncovered(m, ob), ob.days)
  }

  /** What is left once the window of ob is cleared. */
  function Uncovered(m: map<int, Vec>, ob: Observation): map<int, Vec> {
    map d | d in m && !Covers(ob, d) :: m[d]
  }

  /** chainDayMap. */
  function Chain(obs: seq<Observation>): map<int, Vec> {
    if obs == [] then map[] else Fold(Chain(obs[..|obs| - 1]), obs[|obs| - 1])
  }

  function Lookup(m: map<int, Vec>, day: int): Option<Vec> {
    if day in m then Some(m[day]) else None
  }

  /** The observation speaks about the day: its window covers it, or it lists it. */
  predicate SpeaksOf(ob: Observation, day: int) {
    Covers(ob, day) || RowOf(ob.days, day).Some?
  }

  /** The last observation that speaks of the day, or -1. */
  function LastSpeaker(obs: seq<Observation>, day: int): (i: int)
    ensures -1 <= i < |obs|
    ensures i >= 0 ==> SpeaksOf(obs[i], day)
    ensures forall k :: i < k < |obs| ==> !SpeaksOf(obs[k], day)
  {
    if obs == [] then -1
    else if SpeaksOf(obs[|obs| - 1], day) then |obs| - 1
    else LastSpeaker(obs[..|obs| - 1], day)
  }

  /** The direct rule: what the last observation speaking of the day lists for it. */
  function DirectValue(obs: seq<Observation>, day: int): Option<Vec> {
    var i := LastSpeaker(obs, day);
    if i < 0 then None else RowOf(obs[i].days, day)
  }

  lemma {:induction false} WriteRowsLookup(m: map<int, Vec>, days: seq<DayComp>, day: int)
    ensures Lookup(WriteRows(m, days), day) == if RowOf(days, day).Some? then RowOf(days, day) else Lookup(m, day)
  {
    if days != [] {
      WriteRowsLookup(m, days[..|days| - 1], day);
    }
  }

  lemma FoldLookup(m: map<int, Vec>, ob: Observation, day: int)
    ensures Lookup(Fold(m, ob), day) == if SpeaksOf(ob, day) then RowOf(ob.days, day) else Lookup(m, day)
  {
    WriteRowsLookup(Uncovered(m, ob), ob.days, day);
  }

  /** Folding with deletion gives every day whole, from the last observation that
      covers it or lists it; two observations are never mixed. */
  lemma {:induction false} ChainIsDirectRule(obs: seq<Observation>, day: int)
    ensures Lookup(Chain(obs), day) == DirectValue(obs, day)
  {
    if obs != [] {
      var init, last := obs[..|obs| - 1], obs[|obs| - 1];
      ChainIsDirectRule(init, day);
      FoldLookup(Chain(init), last, day);
    }
  }

  // ---------- events per day ----------

  function VecOf(e: UsageEvent): Vec {
    [e.counters.miss, e.counters.cacheRead, e.counters.cacheCreate, e.counters.output]
  }

  function AddVec(a: Vec, b: Vec): Vec {
    [Wrap(a[0] + b[0]), Wrap(a[1] + b[1]), Wrap(a[2] + b[2]), Wrap(a[3] + b[3])]
  }

  function AddToDay(m: map<int, Vec>, e: UsageEvent): map<int, Vec> {
    if e.ts == ZERO_TIME then m
    else
      var d := DayOf(e.ts);
      m[d := AddVec(if d in m then m[d] else [0, 0, 0, 0], VecOf(e))]
  }

  /** The component totals of each UTC day that has an event. */
  function ByDay(es: seq<UsageEvent>): map<int, Vec> {
    if es == [] then map[] else AddToDay(ByDay(es[..|es| - 1]), es[|es| - 1])
  }

  predicate Dated(e: UsageEvent, day: int) {
    e.ts != ZERO_TIME && day * DAY <= e.ts < day * DAY + DAY
  }

  /** One more event of a day. */
  function AddTotals(c: Counters, e: UsageEvent): Counters {
    Counters(c.miss + e.counters.miss, c.cacheRead + e.counters.cacheRead, c.cacheCreate + e.counters.cacheCreate,
             c.output + e.counters.output, 0)
  }

  /** What the events of one UTC day amount to. */
  function TotalsOn(es: seq<UsageEvent>, day: int): Counters {
    if es == [] then NO_TOKENS
    else
      var before, e := TotalsOn(es[..|es| - 1], day), es[|es| - 1];
      if Dated(e, day) then AddTotals(before, e) else before
  }

  /** The four counters of a total, as registers hold them. */
  function Registers(t: Counters): Vec {
    [Wrap(t.miss), Wrap(t.cacheRead), Wrap(t.cacheCreate), Wrap(t.output)]
  }

  lemma RegistersAdd(t: Counters, e: UsageEvent)
    ensures AddVec(Registers(t), VecOf(e)) == Registers(AddTotals(t, e))
    ensures Registers(NO_TOKENS) == [0, 0, 0, 0]
  {
    WrapAdds(t.miss, e.counters.miss);
    WrapAdds(t.cacheRead, e.counters.cacheRead);
    WrapAdds(t.cacheCreate, e.counters.cacheCreate);
    WrapAdds(t.output, e.counters.output);
    assert Wrap(0) == 0;
    hide Wrap;
  }

  lemma DatedIsDay(e: UsageEvent, day: int)
    ensures Dated(e, day) <==> e.ts != ZERO_TIME && DayOf(e.ts) == day
  {
  }

  /** A day is there when a dated event falls on it, with the sums of the four counters as
      registers hold them. */
  lemma {:induction false} ByDayIsSum(es: seq<UsageEvent>, day: int)
    ensures day in ByDay(es) <==> exists e :: e in es && Dated(e, day)
    ensures day !in ByDay(es) ==> TotalsOn(es, day) == NO_TOKENS
    ensures day in ByDay(es) ==> ByDay(es)[day] == Registers(TotalsOn(es, day))
  {
    if es != [] {
      var init, e := es[..|es| - 1], es[|es| - 1];
      ByDayIsSum(init, day);
      assert es == init + [e];
      assert forall x :: x in es <==> x in init || x == e;
      DatedIsDay(e, day);
      RegistersAdd(TotalsOn(init, day), e);
      hide VecOf;
      hide Registers;
      hide AddVec;
      hide AddTotals;
      hide Dated;
      hide DayOf;
    }
  }

  ghost function RowsOf(m: map<int, Vec>): seq<DayComp> {
    var ks := Sorted(m.Keys);
    SortedIsOrder(m.Keys);
    seq(|ks|, i requires 0 <= i < |ks| => DayComp(ks[i], m[ks[i]]))
  }

  /** groupDays: one row per day, oldest first. */
  ghost function GroupDays(es: seq<UsageEvent>): seq<DayComp> {
    RowsOf(ByDay(es))
  }

  ghost predicate Ascending(days: seq<DayComp>) {
    forall i, j :: 0 <= i < j < |days| ==> days[i].day < days[j].day
  }

  lemma RowsOfAscend(m: map<int, Vec>)
    ensures Ascending(RowsOf(m))
    ensures forall i :: 0 <= i < |RowsOf(m)| ==> RowsOf(m)[i].day in m && RowsOf(m)[i].v == m[RowsOf(m)[i].day]
    ensures forall d :: d in m ==> exists i :: 0 <= i < |RowsOf(m)| && RowsOf(m)[i].day == d
  {
    SortedIsOrder(m.Keys);
    forall d | d in m ensures exists i :: 0 <= i < |RowsOf(m)| && RowsOf(m)[i].day == d {
      var i :| 0 <= i < |Sorted(m.Keys)| && Sorted(m.Keys)[i] == d;
      assert RowsOf(m)[i].day == d;
    }
  }

  lemma {:induction false} RowOfAscending(days: seq<DayComp>, i: nat)
    requires Ascending(days) && i < |days|
    ensures RowOf(days, days[i].day) == if DaySum(days[i].v) == 0 then None else Some(days[i].v)
  {
    var n := |days| - 1;
    if i < n {
      assert days[..n][i] == days[i];
      RowOfAscending(days[..n], i);
    } else {
      RowOfAbsent(days[..n], days[n].day);
    }
  }

  lemma {:induction false} RowOfAbsent(days: seq<DayComp>, day: int)
    requires forall i :: 0 <= i < |days| ==> days[i].day != day
    ensures RowOf(days, day) == None
  {
    if days != [] {
      RowOfAbsent(days[..|days| - 1], day);
    }
  }

  /** Looking a day up in rows built from a map is looking it up in the map. */
  lemma RowOfMap(m: map<int, Vec>, day: int)
    ensures RowOf(RowsOf(m), day) == if day in m && DaySum(m[day]) != 0 then Some(m[day]) else None
  {
    RowsOfAscend(m);
    if day in m {
      var i :| 0 <= i < |RowsOf(m)| && RowsOf(m)[i].day == day;
      RowOfAscending(RowsOf(m), i);
    } else {
      RowOfAbsent(RowsOf(m), day);
    }
  }

  /** Dropping the zero rows loses nothing that a lookup would find. */
  lemma {:induction false} RowOfNonZero(days: seq<DayComp>, day: int)
    ensures RowOf(NonZero(days), day) == RowOf(days, day)
  {
    if days != [] {
      var init, last := days[..|days| - 1], days[|days| - 1];
      RowOfNonZero(init, day);
      RowOfConcat(NonZero(init), if DaySum(last.v) == 0 then [] else [last], day);
    }
  }

  lemma {:induction false} RowOfConcat(a: seq<DayComp>, b: seq<DayComp>, day: int)
    ensures RowOf(a + b, day) == if RowOf(b, day).Some? then RowOf(b, day) else RowOf(a, day)
    decreases |b|
  {
    if b == [] {
      assert a + b == a;
    } else {
      assert (a + b)[..|a + b| - 1] == a + b[..|b| - 1];
      RowOfConcat(a, b[..|b| - 1], day);
    }
  }

  // ---------- noting a finished window ----------

  /** The non-zero rows inside a window. */
  function KeepInside(days: seq<DayComp>, first: int, last: int): seq<DayComp> {
    if days == [] then []
    else
      var d := days[|days| - 1];
      KeepInside(days[..|days| - 1], first, last) + if first <= d.day <= last && DaySum(d.v) != 0 then [d] else []
  }

  lemma {:induction false} RowOfInside(days: seq<DayComp>, first: int, last: int, day: int)
    ensures RowOf(KeepInside(days, first, last), day) == if first <= day <= last then RowOf(days, day) else None
  {
    if days != [] {
      var d := days[|days| - 1];
      RowOfInside(days[..|days| - 1], first, last, day);
      RowOfConcat(KeepInside(days[..|days| - 1], first, last),
                  if first <= d.day <= last && DaySum(d.v) != 0 then [d] else [], day);
    }
  }

  function TokenSum(days: seq<DayComp>): int {
    if days == [] then 0 else Wrap(TokenSum(days[..|days| - 1]) + DaySum(days[|days| - 1].v))
  }

  ghost function WindowNote(first: int, last: int, at: int, es: seq<UsageEvent>): Observation {
    var kept := KeepInside(GroupDays(es), first, last);
    Observation(WindowRows(first, last, kept), TokenSum(kept), at, Some(first), Some(last), "window", "api", kept)
  }

  /** What a day is worth in a batch of account events: its totals, or nothing. */
  function Measured(es: seq<UsageEvent>, day: int): Option<Vec> {
    if day in ByDay(es) && DaySum(ByDay(es)[day]) != 0 then Some(ByDay(es)[day]) else None
  }

  ghost function ValueAt(table: seq<Observation>, day: int): Option<Vec> {
    Lookup(Chain(Asc(table)), day)
  }

  lemma InsertNewest(table: seq<Observation>, ob: Observation, day: int)
    requires !Stored(table, ob.content) && NotBefore(table, ob.at)
    ensures ValueAt(Insert(table, ob), day) == if SpeaksOf(ob, day) then RowOf(ob.days, day) else ValueAt(table, day)
  {
    var kept := ob.(days := NonZero(ob.days));
    AscAppends(table, kept);
    assert (Asc(table) + [kept])[..|Asc(table)|] == Asc(table);
    FoldLookup(Chain(Asc(table)), kept, day);
    RowOfNonZero(ob.days, day);
  }

  lemma WindowNoteRows(first: int, last: int, at: int, es: seq<UsageEvent>, day: int)
    ensures RowOf(WindowNote(first, last, at, es).days, day) == if first <= day <= last then Measured(es, day) else None
  {
    RowOfInside(GroupDays(es), first, last, day);
    RowOfMap(ByDay(es), day);
  }

  /** A newest note of new content replaces its window, a measured-empty one included,
      and leaves every day outside it. */
  lemma NoteReplacesWindow(table: seq<Observation>, first: int, last: int, at: int, es: seq<UsageEvent>, day: int)
    requires first <= last && NotBefore(table, at) && !Stored(table, WindowNote(first, last, at, es).content)
    ensures ValueAt(Insert(table, WindowNote(first, last, at, es)), day)
            == if first <= day <= last then Measured(es, day) else ValueAt(table, day)
  {
    WindowNoteRows(first, last, at, es, day);
    InsertNewest(table, WindowNote(first, last, at, es), day);
  }

  /** Noting A, then B, then A again for one window leaves B: the third note is known
      content and is ignored, whatever its time. */
  lemma RenoteKeepsTheOther(table: seq<Observation>, first: int, last: int, a: seq<UsageEvent>, b: seq<UsageEvent>,
                            t1: int, t2: int, t3: int, day: int)
    requires first <= day <= last && t1 <= t2 && NotBefore(table, t1)
    requires WindowNote(first, last, t1, a).content != WindowNote(first, last, t2, b).content
    requires !Stored(table, WindowNote(first, last, t2, b).content)
    ensures var one := Insert(table, WindowNote(first, last, t1, a));
            var two := Insert(one, WindowNote(first, last, t2, b));
            var three := Insert(two, WindowNote(first, last, t3, a));
            three == two && ValueAt(three, day) == Measured(b, day)
  {
    var noteA := WindowNote(first, last, t1, a);
    var one := Insert(table, noteA);
    var two := Insert(one, WindowNote(first, last, t2, b));
    NoteReplacesWindow(one, first, last, t2, b, day);
    assert Stored(one, noteA.content) by {
      if !Stored(table, noteA.content) {
        assert one[|table|].content == noteA.content;
      }
    }
    var k :| 0 <= k < |one| && one[k].content == noteA.content;
    assert two[k].content == noteA.content;
  }

  // ---------- noting stored content again ----------

  lemma {:induction false} InsertByTimeKeeps(sorted: seq<Observation>, ob: Observation)
    ensures forall x :: x in InsertByTime(sorted, ob) <==> x in sorted || x == ob
  {
    if sorted != [] {
      var n := |sorted| - 1;
      InsertByTimeKeeps(sorted[..n], ob);
      assert sorted == sorted[..n] + [sorted[n]];
    }
  }

  lemma {:induction false} AscKeeps(table: seq<Observation>)
    ensures forall x :: x in Asc(table) <==> x in table
  {
    if table != [] {
      var n := |table| - 1;
      AscKeeps(table[..n]);
      InsertByTimeKeeps(Asc(table[..n]), table[n]);
      assert table == table[..n] + [table[n]];
    }
  }

  /** The last position of some content in time order, or -1. */
  function PositionOf(obs: seq<Observation>, content: Content): (i: int)
    ensures -1 <= i < |obs|
    ensures i >= 0 ==> obs[i].content == content
    ensures forall k :: i < k < |obs| ==> obs[k].content != content
  {
    if obs == [] then -1
    else if obs[|obs| - 1].content == content then |obs| - 1
    else PositionOf(obs[..|obs| - 1], content)
  }

  lemma PositionIsStored(table: seq<Observation>, content: Content)
    ensures PositionOf(Asc(table), content) >= 0 <==> Stored(table, content)
  {
    AscKeeps(table);
    var i := PositionOf(Asc(table), content);
    if i >= 0 {
      assert Asc(table)[i] in table;
    }
    if k :| 0 <= k < |table| && table[k].content == content {
      assert table[k] in Asc(table);
    }
  }

  /** A window's row carries the span and the days its content was made from. */
  predicate WindowFiled(ob: Observation) {
    ob.content.WindowRows? ==>
      ob.from == Some(ob.content.first) && ob.to == Some(ob.content.last) && ob.days == ob.content.days
  }

  ghost predicate WindowsFiled(table: seq<Observation>) {
    forall k :: 0 <= k < |table| ==> WindowFiled(table[k])
  }

  lemma {:induction false} KeptIsNonZero(days: seq<DayComp>, first: int, last: int)
    ensures NonZero(KeepInside(days, first, last)) == KeepInside(days, first, last)
  {
    if days != [] {
      var kept, d := KeepInside(days[..|days| - 1], first, last), days[|days| - 1];
      KeptIsNonZero(days[..|days| - 1], first, last);
      assert kept + [] == kept && (kept + [d])[..|kept|] == kept;
    }
  }

  /** Every way to store an observation files its window. */
  lemma StoringKeepsFiled(table: seq<Observation>, ob: Observation)
    requires WindowsFiled(table) && WindowFiled(ob) && (ob.content.WindowRows? ==> NonZero(ob.days) == ob.days)
    ensures WindowsFiled(Insert(table, ob))
  {
  }

  lemma NoteIsFiled(first: int, last: int, at: int, es: seq<UsageEvent>)
    ensures var note := WindowNote(first, last, at, es); WindowFiled(note) && NonZero(note.days) == note.days
  {
    KeptIsNonZero(GroupDays(es), first, last);
  }

  /** A later observation has the last word on the day, and lists another value. */
  ghost predicate Overruled(obs: seq<Observation>, j: int, day: int, value: Option<Vec>) {
    var i := LastSpeaker(obs, day);
    i >= 0 && i > j && RowOf(obs[i].days, day) != value
  }

  /** Every day of the window is worth what the batch measured. */
  ghost predicate Shows(table: seq<Observation>, first: int, last: int, es: seq<UsageEvent>) {
    forall day :: first <= day <= last ==> ValueAt(table, day) == Measured(es, day)
  }

  /** The content is new, or no later observation than the stored one has another word on a
      day of the window. */
  ghost predicate HasLastWord(table: seq<Observation>, first: int, last: int, content: Content, es: seq<UsageEvent>) {
    var j := PositionOf(Asc(table), content);
    j < 0 || forall day :: first <= day <= last ==> !Overruled(Asc(table), j, day, Measured(es, day))
  }

  /** After a note its whole window shows what it measured exactly when it has the last word. */
  lemma NoteHoldsIff(table: seq<Observation>, first: int, last: int, at: int, es: seq<UsageEvent>)
    requires first <= last && WindowsFiled(table)
    requires Stored(table, WindowNote(first, last, at, es).content) || NotBefore(table, at)
    ensures var note := WindowNote(first, last, at, es);
            Shows(Insert(table, note), first, last, es) <==> HasLastWord(table, first, last, note.content, es)
  {
    var note := WindowNote(first, last, at, es);
    var j := PositionOf(Asc(table), note.content);
    PositionIsStored(table, note.content);
    forall day | first <= day <= last
      ensures ValueAt(Insert(table, note), day) == Measured(es, day)
              <==> j < 0 || !Overruled(Asc(table), j, day, Measured(es, day))
    {
      if j < 0 {
        NoteReplacesWindow(table, first, last, at, es, day);
      } else {
        AscKeeps(table);
        assert Asc(table)[j] in table;
        RenoteShows(table, j, first, last, at, es, day);
      }
    }
  }

  lemma RenoteShows(table: seq<Observation>, j: nat, first: int, last: int, at: int, es: seq<UsageEvent>, day: int)
    requires j < |Asc(table)| && Asc(table)[j].content == WindowNote(first, last, at, es).content
    requires WindowFiled(Asc(table)[j]) && first <= day <= last
    ensures ValueAt(table, day) == Measured(es, day) <==> !Overruled(Asc(table), j, day, Measured(es, day))
  {
    ChainIsDirectRule(Asc(table), day);
    WindowNoteRows(first, last, at, es, day);
    assert SpeaksOf(Asc(table)[j], day);
  }

  // ---------- saving one observation ----------

  /** The observation SaveObservation would store. */
  ghost function SavedObservation(origin: string, coverage: string, at: int, es: seq<UsageEvent>): Observation
    requires GroupDays(es) != []
  {
    var days := GroupDays(es);
    Observation(DayRows(days), TokenSum(days), at, Some(days[0].day), Some(days[|days| - 1].day), coverage, origin,
                days)
  }

  /** A batch without days, or without a positive total, is not an observation. */
  ghost function Saved(table: seq<Observation>, origin: string, coverage: string, at: int,
                       es: seq<UsageEvent>): seq<Observation>
  {
    if GroupDays(es) == [] || TokenSum(GroupDays(es)) <= 0 then table
    else Insert(table, SavedObservation(origin, coverage, at, es))
  }

  /** What a saved batch leaves: nothing when no event is dated, when its days do not add up to a
      positive total, or when the content is known; and else one more observation, of the days
      from the first to the last that have an event, worth on each what was measured. */
  lemma SavedIs(table: seq<Observation>, origin: string, coverage: string, at: int, es: seq<UsageEvent>)
    ensures GroupDays(es) != [] <==> exists e :: e in es && e.ts != ZERO_TIME
    ensures var t := Saved(table, origin, coverage, at, es);
            if (forall e :: e in es ==> e.ts == ZERO_TIME) || TokenSum(GroupDays(es)) <= 0
               || Stored(table, DayRows(GroupDays(es)))
            then t == table
            else
              && |t| == |table| + 1 && t[..|table|] == table
              && var ob := t[|table|];
                 && ob.origin == origin && ob.coverage == coverage && ob.at == at && ob.from.Some? && ob.to.Some?
                 && ob.content == DayRows(GroupDays(es)) && ob.tokens == TokenSum(GroupDays(es))
                 && (forall e :: e in es && e.ts != ZERO_TIME ==> ob.from.value <= DayOf(e.ts) <= ob.to.value)
                 && (exists e :: e in es && e.ts != ZERO_TIME && DayOf(e.ts) == ob.from.value)
                 && (exists e :: e in es && e.ts != ZERO_TIME && DayOf(e.ts) == ob.to.value)
                 && forall day :: RowOf(ob.days, day) == Measured(es, day)
  {
    DaysOfEvents(es);
    if GroupDays(es) != [] && TokenSum(GroupDays(es)) > 0 && !Stored(table, DayRows(GroupDays(es))) {
      var ob := SavedObservation(origin, coverage, at, es);
      forall day ensures RowOf(NonZero(ob.days), day) == Measured(es, day) {
        RowOfNonZero(ob.days, day);
        RowOfMap(ByDay(es), day);
      }
    }
  }

  lemma DaysOfEvents(es: seq<UsageEvent>)
    ensures GroupDays(es) != [] <==> exists e :: e in es && e.ts != ZERO_TIME
    ensures var days := GroupDays(es);
            days != [] ==>
              && (forall e :: e in es && e.ts != ZERO_TIME ==> days[0].day <= DayOf(e.ts) <= days[|days| - 1].day)
              && (exists e :: e in es && e.ts != ZERO_TIME && DayOf(e.ts) == days[0].day)
              && (exists e :: e in es && e.ts != ZERO_TIME && DayOf(e.ts) == days[|days| - 1].day)
  {
    var days := GroupDays(es);
    RowsOfAscend(ByDay(es));
    forall e | e in es && e.ts != ZERO_TIME
      ensures days != [] && days[0].day <= DayOf(e.ts) <= days[|days| - 1].day
    {
      ByDayIsSum(es, DayOf(e.ts));
      DatedIsDay(e, DayOf(e.ts));
      var i :| 0 <= i < |days| && days[i].day == DayOf(e.ts);
    }
    if days != [] {
      ByDayIsSum(es, days[0].day);
      ByDayIsSum(es, days[|days| - 1].day);
      var e :| e in es && Dated(e, days[0].day);
      var f :| f in es && Dated(f, days[|days| - 1].day);
      DatedIsDay(e, days[0].day);
      DatedIsDay(f, days[|days| - 1].day);
    }
  }
}
