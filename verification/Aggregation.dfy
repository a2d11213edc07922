/** Model of internal/metric/summary.go: repeated rows of one request merged, and every
    counter folded with saturating addition over several axes at once. Costs are left out. */
module Aggregation {
  import opened Events
  import opened Int64
  import opened Wrappers

  // ---------- merging the rows of a request ----------

  predicate Usable(e: UsageEvent) {
    e.counters.miss >= 0 && e.counters.cacheRead >= 0 && e.counters.cacheCreate >= 0 && e.counters.output >= 0
  }

  function KeyOf(e: UsageEvent): string {
    e.source + [0 as char] + e.request
  }

  function QualityRank(q: Quality): int {
    match q
    case Degraded => 3
    case Estimated => 2
    case Authoritative => 1
    case _ => 0
  }

  /** The later of two instants; the zero time is no instant. */
  function Later(a: int, b: int): int {
    if a == ZERO_TIME || (b != ZERO_TIME && b > a) then b else a
  }

  /** maxEvent: the first row, raised to the second. */
  function MaxEvent(a: UsageEvent, b: UsageEvent): UsageEvent {
    a.(counters := MaxCounters(a.counters, b.counters), ts := Later(a.ts, b.ts),
       quality := if QualityRank(b.quality) > QualityRank(a.quality) then b.quality else a.quality)
  }

  predicate IsFor(e: UsageEvent, key: string) {
    e.request != "" && KeyOf(e) == key
  }

  /** Where the row of a request is in the output, or -1. */
  function Place(out: seq<UsageEvent>, key: string): (i: int)
    ensures -1 <= i < |out|
    ensures i >= 0 ==> IsFor(out[i], key)
    ensures i < 0 ==> forall j :: 0 <= j < |out| ==> !IsFor(out[j], key)
  {
    if out == [] then -1
    else if IsFor(out[|out| - 1], key) then |out| - 1
    else Place(out[..|out| - 1], key)
  }

  function MergeOne(out: seq<UsageEvent>, e: UsageEvent): seq<UsageEvent> {
    if !Usable(e) then out
    else if e.request == "" || Place(out, KeyOf(e)) < 0 then out + [e]
    else out[Place(out, KeyOf(e)) := MaxEvent(out[Place(out, KeyOf(e))], e)]
  }

  /** mergeByRequest. */
  function Merged(es: seq<UsageEvent>): seq<UsageEvent> {
    if es == [] then [] else MergeOne(Merged(es[..|es| - 1]), es[|es| - 1])
  }

  /** Usable rows, one per request. */
  ghost predicate Canonical(out: seq<UsageEvent>) {
    && (forall i :: 0 <= i < |out| ==> Usable(out[i]))
    && forall i, j :: 0 <= i < j < |out| && out[i].request != "" && out[j].request != "" ==>
       KeyOf(out[i]) != KeyOf(out[j])
  }

  lemma MergeOneKeepsCanonical(out: seq<UsageEvent>, e: UsageEvent)
    requires Canonical(out)
    ensures Canonical(MergeOne(out, e))
  {
  }

  lemma {:induction false} MergedIsCanonical(es: seq<UsageEvent>)
    ensures Canonical(Merged(es))
  {
    if es != [] {
      MergedIsCanonical(es[..|es| - 1]);
      MergeOneKeepsCanonical(Merged(es[..|es| - 1]), es[|es| - 1]);
    }
  }

  lemma NewRowIsAppended(init: seq<UsageEvent>, e: UsageEvent)
    requires Canonical(init + [e])
    ensures MergeOne(init, e) == init + [e] && Canonical(init)
  {
    var out := init + [e];
    assert out[|init|] == e && forall j :: 0 <= j < |init| ==> out[j] == init[j];
    assert e.request != "" ==> forall j :: 0 <= j < |init| ==> !IsFor(init[j], KeyOf(e));
  }

  lemma {:induction false} CanonicalIsFixed(out: seq<UsageEvent>)
    requires Canonical(out)
    ensures Merged(out) == out
  {
    if out != [] {
      var init, last := out[..|out| - 1], out[|out| - 1];
      assert out == init + [last];
      NewRowIsAppended(init, last);
      CanonicalIsFixed(init);
    }
  }

  /** Merging what is merged changes nothing. */
  lemma MergeTwice(es: seq<UsageEvent>)
    ensures Merged(Merged(es)) == Merged(es)
  {
    MergedIsCanonical(es);
    CanonicalIsFixed(Merged(es));
  }

  // ---------- a request's counters and time do not depend on the order of its rows ----------

  datatype Gathering = Gathering(counters: Counters, ts: int)

  /** What all usable rows of a request amount to. */
  function Gathered(es: seq<UsageEvent>, key: string): Option<Gathering> {
    if es == [] then None
    else
      var before, e := Gathered(es[..|es| - 1], key), es[|es| - 1];
      if !Usable(e) || !IsFor(e, key) then before
      else if before.None? then Some(Gathering(e.counters, e.ts))
      else Some(Gathering(MaxCounters(before.value.counters, e.counters), Later(before.value.ts, e.ts)))
  }

  function AtPlace(out: seq<UsageEvent>, key: string): Option<Gathering> {
    if Place(out, key) < 0 then None else Some(Gathering(out[Place(out, key)].counters, out[Place(out, key)].ts))
  }

  lemma PlaceUpdated(out: seq<UsageEvent>, i: nat, e: UsageEvent, key: string)
    requires Canonical(out) && i < |out| && out[i].request != "" && e.request != "" && KeyOf(e) == KeyOf(out[i])
    ensures AtPlace(out[i := e], key) ==
            if KeyOf(e) == key then Some(Gathering(e.counters, e.ts)) else AtPlace(out, key)
  {
    var next := out[i := e];
    var p, q := Place(next, key), Place(out, key);
    assert p >= 0 ==> IsFor(next[p], key);
    assert q >= 0 ==> IsFor(next[q], key);
    assert p >= 0 && q >= 0 ==> KeyOf(out[p]) == KeyOf(out[q]);
  }

  lemma MergeOneGathers(out: seq<UsageEvent>, e: UsageEvent, key: string)
    requires Canonical(out)
    ensures AtPlace(MergeOne(out, e), key) ==
            if !Usable(e) || !IsFor(e, key) then AtPlace(out, key)
            else if AtPlace(out, key).None? then Some(Gathering(e.counters, e.ts))
            else Some(Gathering(MaxCounters(AtPlace(out, key).value.counters, e.counters),
                                Later(AtPlace(out, key).value.ts, e.ts)))
  {
    if Usable(e) {
      var i := Place(out, KeyOf(e));
      if e.request == "" || i < 0 {
        assert (out + [e])[..|out|] == out;
      } else {
        PlaceUpdated(out, i, MaxEvent(out[i], e), key);
      }
    }
  }

  lemma {:induction false} MergedGathers(es: seq<UsageEvent>, key: string)
    ensures AtPlace(Merged(es), key) == Gathered(es, key)
  {
    if es != [] {
      var init := es[..|es| - 1];
      MergedGathers(init, key);
      MergedIsCanonical(init);
      MergeOneGathers(Merged(init), es[|es| - 1], key);
    }
  }

  ghost predicate Counts(es: seq<UsageEvent>, key: string, e: UsageEvent) {
    e in es && Usable(e) && IsFor(e, key)
  }

  ghost predicate IsGreatest(es: seq<UsageEvent>, key: string, i: nat, n: int) {
    && (forall e :: Counts(es, key, e) ==> Part(e.counters, i) <= n)
    && exists e :: Counts(es, key, e) && Part(e.counters, i) == n
  }

  ghost predicate IsLatest(es: seq<UsageEvent>, key: string, ts: int) {
    && (forall e :: Counts(es, key, e) ==> Later(ts, e.ts) == ts)
    && exists e :: Counts(es, key, e) && e.ts == ts
  }

  lemma CountsSnoc(es: seq<UsageEvent>, last: UsageEvent, key: string, e: UsageEvent)
    ensures Counts(es + [last], key, e) <==> Counts(es, key, e) || (e == last && Usable(last) && IsFor(last, key))
  {
  }

  /** Each gathered counter is the greatest of the request's rows. */
  lemma {:induction false} GatheredIsGreatest(es: seq<UsageEvent>, key: string, i: nat)
    ensures match Gathered(es, key)
            case None => forall e :: !Counts(es, key, e)
            case Some(g) => IsGreatest(es, key, i, Part(g.counters, i))
  {
    if es != [] {
      var init, last := es[..|es| - 1], es[|es| - 1];
      assert es == init + [last];
      GatheredIsGreatest(init, key, i);
      forall e { CountsSnoc(init, last, key, e); }
      if Gathered(init, key).Some? {
        var e :| Counts(init, key, e) && Part(e.counters, i) == Part(Gathered(init, key).value.counters, i);
        assert Counts(es, key, e);
      }
      assert Usable(last) && IsFor(last, key) ==> Counts(es, key, last);
    }
  }

  /** So is the gathered time the latest. */
  lemma {:induction false} GatheredIsLatest(es: seq<UsageEvent>, key: string)
    ensures Gathered(es, key).Some? ==> IsLatest(es, key, Gathered(es, key).value.ts)
    ensures Gathered(es, key).None? ==> forall e :: !Counts(es, key, e)
  {
    if es != [] {
      var init, last := es[..|es| - 1], es[|es| - 1];
      assert es == init + [last];
      GatheredIsLatest(init, key);
      forall e { CountsSnoc(init, last, key, e); }
      if Gathered(init, key).Some? {
        var e :| Counts(init, key, e) && e.ts == Gathered(init, key).value.ts;
        assert Counts(es, key, e);
      }
      assert Usable(last) && IsFor(last, key) ==> Counts(es, key, last);
    }
  }

  /** Two scans that saw the same rows, in whatever order, agree on every request. */
  lemma OrderDoesNotMatter(es: seq<UsageEvent>, fs: seq<UsageEvent>, key: string)
    requires forall e :: e in es <==> e in fs
    ensures AtPlace(Merged(es), key) == AtPlace(Merged(fs), key)
  {
    MergedGathers(es, key);
    MergedGathers(fs, key);
    assert forall e :: Counts(es, key, e) <==> Counts(fs, key, e);
    GatheredIsLatest(es, key);
    GatheredIsLatest(fs, key);
    if Gathered(es, key).Some? && Gathered(fs, key).Some? {
      SameGreatest(es, fs, key, 0);
      SameGreatest(es, fs, key, 1);
      SameGreatest(es, fs, key, 2);
      SameGreatest(es, fs, key, 3);
      SameGreatest(es, fs, key, 4);
    } else {
      assert Gathered(es, key).None? <==> Gathered(fs, key).None?;
    }
  }

  lemma SameGreatest(es: seq<UsageEvent>, fs: seq<UsageEvent>, key: string, i: nat)
    requires (forall e :: Counts(es, key, e) <==> Counts(fs, key, e)) && Gathered(es, key).Some?
             && Gathered(fs, key).Some?
    ensures Part(Gathered(es, key).value.counters, i) == Part(Gathered(fs, key).value.counters, i)
  {
    GatheredIsGreatest(es, key, i);
    GatheredIsGreatest(fs, key, i);
  }

  // ---------- saturating addition ----------

  /** satAdd. */
  function SatAdd(a: int, b: int): (r: int)
    requires Fits(a) && Fits(b)
    ensures r == if a + b > MAX then MAX else if a + b < MIN then MIN else a + b
  {
    if b > 0 && a > MAX - b then MAX else if b < 0 && a < MIN - b then MIN else a + b
  }

  function Clamp(n: int): int {
    if n > MAX then MAX else n
  }

  // ---------- slices ----------

  datatype Slice = Slice(miss: int, cacheRead: int, cacheCreate: int, output: int, requests: nat, turns: nat,
                         quality: Quality)

  const EMPTY := Slice(0, 0, 0, 0, 0, 0, Unset)

  predicate InInt64(s: Slice) {
    Fits(s.miss) && Fits(s.cacheRead) && Fits(s.cacheCreate) && Fits(s.output)
  }

  predicate CountersFit(e: UsageEvent) {
    Fits(e.counters.miss) && Fits(e.counters.cacheRead) && Fits(e.counters.cacheCreate) && Fits(e.counters.output)
  }

  /** addSlice. A row whose counters are no int64 does not occur. */
  function AddSlice(s: Slice, e: UsageEvent): (r: Slice)
    requires InInt64(s) && CountersFit(e)
    ensures InInt64(r) && r.turns == s.turns
  {
    Slice(SatAdd(s.miss, e.counters.miss), SatAdd(s.cacheRead, e.counters.cacheRead),
          SatAdd(s.cacheCreate, e.counters.cacheCreate),
          SatAdd(s.output, e.counters.output), s.requests + if e.skipRequest then 0 else 1, s.turns,
          if QualityRank(e.quality) > QualityRank(s.quality) then e.quality else s.quality)
  }

  /** The axes of a summary, and the slots merging works on. norm stands for the price
      list's model name, empty where the list has none. */
  datatype Axis = BySource | ByVendor | ByPair | ByModel(norm: UsageEvent -> string) | BySlot

  function KeyOn(a: Axis, e: UsageEvent): string {
    match a
    case BySource => e.source
    case ByVendor => e.vendor
    case ByPair => e.source + [0 as char] + e.vendor
    case ByModel(norm) => e.vendor + [0 as char] + norm(e)
    case BySlot => if e.request == "" then "" else KeyOf(e)
  }

  ghost predicate AllFit(es: seq<UsageEvent>) {
    forall i :: 0 <= i < |es| ==> CountersFit(es[i])
  }

  ghost function All(es: seq<UsageEvent>): (s: Slice)
    requires AllFit(es)
    ensures InInt64(s) && s.turns == 0
  {
    if es == [] then EMPTY else AddSlice(All(es[..|es| - 1]), es[|es| - 1])
  }

  function SliceAt(m: map<string, Slice>, k: string): Slice {
    if k in m then m[k] else EMPTY
  }

  ghost predicate SlicesFit(m: map<string, Slice>) {
    forall k :: k in m ==> InInt64(m[k])
  }

  ghost function Group(a: Axis, es: seq<UsageEvent>): (m: map<string, Slice>)
    requires AllFit(es)
    ensures SlicesFit(m)
  {
    if es == [] then map[]
    else
      var before, e := Group(a, es[..|es| - 1]), es[|es| - 1];
      before[KeyOn(a, e) := AddSlice(SliceAt(before, KeyOn(a, e)), e)]
  }

  // ---------- exact sums ----------

  function SliceCounter(s: Slice, c: nat): int {
    if c == 0 then s.miss else if c == 1 then s.cacheRead else if c == 2 then s.cacheCreate
    else if c == 3 then s.output else s.requests
  }

  /** What one row adds to counter c; the fifth counter is the requests. */
  function Adds(e: UsageEvent, c: nat): int {
    if c < 4 then Part(e.counters, c) else if e.skipRequest then 0 else 1
  }

  function Exact(es: seq<UsageEvent>, c: nat): int {
    if es == [] then 0 else Exact(es[..|es| - 1], c) + Adds(es[|es| - 1], c)
  }

  function ExactOn(a: Axis, k: string, es: seq<UsageEvent>, c: nat): int {
    if es == [] then 0
    else ExactOn(a, k, es[..|es| - 1], c) + if KeyOn(a, es[|es| - 1]) == k then Adds(es[|es| - 1], c) else 0
  }

  /** The counters of rows that may be counted. */
  ghost predicate Countable(es: seq<UsageEvent>) {
    AllFit(es) && forall i :: 0 <= i < |es| ==> Usable(es[i])
  }

  function Bounded(n: int, c: nat): int {
    if c < 4 then Clamp(n) else n
  }

  lemma AddSliceIsExact(s: Slice, e: UsageEvent, n: int, c: nat)
    requires InInt64(s) && CountersFit(e) && Usable(e) && n >= 0 && SliceCounter(s, c) == Bounded(n, c)
    ensures SliceCounter(AddSlice(s, e), c) == Bounded(n + Adds(e, c), c)
  {
  }

  lemma {:induction false} AllIsExact(es: seq<UsageEvent>, c: nat)
    requires Countable(es)
    ensures Exact(es, c) >= 0 && SliceCounter(All(es), c) == Bounded(Exact(es, c), c)
  {
    if es != [] {
      var init := es[..|es| - 1];
      AllIsExact(init, c);
      AddSliceIsExact(All(init), es[|es| - 1], Exact(init, c), c);
    }
  }

  lemma {:induction false} GroupIsExact(a: Axis, es: seq<UsageEvent>, k: string, c: nat)
    requires Countable(es)
    ensures ExactOn(a, k, es, c) >= 0 && SliceCounter(SliceAt(Group(a, es), k), c) == Bounded(ExactOn(a, k, es, c), c)
  {
    if es != [] {
      var init, e := es[..|es| - 1], es[|es| - 1];
      GroupIsExact(a, init, k, c);
      hide KeyOn;
      hide AddSlice;
      if KeyOn(a, e) == k {
        AddSliceIsExact(SliceAt(Group(a, init), k), e, ExactOn(a, k, init, c), c);
      }
    }
  }

  // ---------- every axis adds up to the whole ----------

  /** Counter c over the slices of some keys, added the way the counter is. */
  ghost function Over(m: map<string, Slice>, ks: seq<string>, c: nat): (n: int)
    requires SlicesFit(m)
    ensures c < 4 ==> Fits(n)
  {
    if ks == [] then 0
    else
      var before, last := Over(m, ks[..|ks| - 1], c), SliceCounter(SliceAt(m, ks[|ks| - 1]), c);
      if c < 4 then SatAdd(before, last) else before + last
  }

  function ExactOver(a: Axis, ks: seq<string>, es: seq<UsageEvent>, c: nat): int {
    if ks == [] then 0 else ExactOver(a, ks[..|ks| - 1], es, c) + ExactOn(a, ks[|ks| - 1], es, c)
  }

  lemma {:induction false} OverIsExact(a: Axis, ks: seq<string>, es: seq<UsageEvent>, c: nat)
    requires Countable(es)
    ensures ExactOver(a, ks, es, c) >= 0 && Over(Group(a, es), ks, c) == Bounded(ExactOver(a, ks, es, c), c)
  {
    if ks != [] {
      OverIsExact(a, ks[..|ks| - 1], es, c);
      GroupIsExact(a, es, ks[|ks| - 1], c);
    }
  }

  ghost predicate Distinct(ks: seq<string>) {
    forall i, j :: 0 <= i < j < |ks| ==> ks[i] != ks[j]
  }

  lemma {:induction false} ExactOverEmpty(a: Axis, ks: seq<string>, c: nat)
    ensures ExactOver(a, ks, [], c) == 0
  {
    if ks != [] {
      ExactOverEmpty(a, ks[..|ks| - 1], c);
    }
  }

  /** One more row counts under its one key. */
  lemma {:induction false} ExactOverSnoc(a: Axis, ks: seq<string>, es: seq<UsageEvent>, e: UsageEvent, c: nat)
    requires Distinct(ks)
    ensures ExactOver(a, ks, es + [e], c) == ExactOver(a, ks, es, c) + if KeyOn(a, e) in ks then Adds(e, c) else 0
  {
    if ks != [] {
      var init, k := ks[..|ks| - 1], ks[|ks| - 1];
      assert ks == init + [k];
      ExactOverSnoc(a, init, es, e, c);
      assert (es + [e])[..|es|] == es;
      assert k !in init;
    }
  }

  lemma {:induction false} KeysPartition(a: Axis, ks: seq<string>, es: seq<UsageEvent>, c: nat)
    requires Distinct(ks) && forall i :: 0 <= i < |es| ==> KeyOn(a, es[i]) in ks
    ensures ExactOver(a, ks, es, c) == Exact(es, c)
  {
    if es == [] {
      ExactOverEmpty(a, ks, c);
    } else {
      var init, e := es[..|es| - 1], es[|es| - 1];
      assert es == init + [e];
      forall i | 0 <= i < |init| ensures KeyOn(a, init[i]) in ks {
        assert init[i] == es[i];
      }
      KeysPartition(a, ks, init, c);
      ExactOverSnoc(a, ks, init, e, c);
    }
  }

  lemma {:induction false} GroupKeys(a: Axis, es: seq<UsageEvent>, i: nat)
    requires AllFit(es) && i < |es|
    ensures KeyOn(a, es[i]) in Group(a, es)
  {
    if i < |es| - 1 {
      assert es[..|es| - 1][i] == es[i];
      GroupKeys(a, es[..|es| - 1], i);
    }
  }

  /** Folding any counter over the slices of any axis, taken in any order, gives the
      counter of the whole: both are the exact sum, or the greatest int64 beyond it. */
  lemma AxisAddsUp(a: Axis, es: seq<UsageEvent>, ks: seq<string>, c: nat)
    requires Countable(es) && Distinct(ks) && forall k :: k in Group(a, es) ==> k in ks
    ensures Over(Group(a, es), ks, c) == SliceCounter(All(es), c) == Bounded(Exact(es, c), c)
  {
    forall i | 0 <= i < |es| ensures KeyOn(a, es[i]) in ks {
      GroupKeys(a, es, i);
    }
    KeysPartition(a, ks, es, c);
    OverIsExact(a, ks, es, c);
    AllIsExact(es, c);
  }

  // ---------- the whole does not depend on the order the rows were read in ----------

  /** The unmerged rows, those without a request id. */
  function Loose(es: seq<UsageEvent>, c: nat): int {
    if es == [] then 0
    else
      var e := es[|es| - 1];
      Loose(es[..|es| - 1], c) + if Usable(e) && e.request == "" then Adds(e, c) else 0
  }

  lemma {:induction false} LooseWithout(es: seq<UsageEvent>, i: nat, c: nat)
    requires i < |es|
    ensures Loose(es, c) == Loose(es[..i] + es[i + 1..], c) + Loose([es[i]], c)
  {
    var n := |es| - 1;
    var last := es[n];
    assert es == es[..n] + [last];
    if i < n {
      LooseWithout(es[..n], i, c);
      var short := es[..n][..i] + es[..n][i + 1..];
      assert es[..i] + es[i + 1..] == short + [last];
    } else {
      assert es[..i] + es[i + 1..] == es[..n];
    }
  }

  lemma TakenOut(init: seq<UsageEvent>, e: UsageEvent, fs: seq<UsageEvent>) returns (i: nat)
    requires multiset(init + [e]) == multiset(fs)
    ensures i < |fs| && fs[i] == e && multiset(fs[..i] + fs[i + 1..]) == multiset(init)
  {
    assert e in multiset(init + [e]);
    i :| 0 <= i < |fs| && fs[i] == e;
    assert fs == fs[..i] + [e] + fs[i + 1..];
    assert multiset(fs) == multiset(fs[..i] + fs[i + 1..]) + multiset{e};
    assert multiset(init + [e]) == multiset(init) + multiset{e};
    assert multiset(init) == multiset(init + [e]) - multiset{e};
  }

  lemma {:induction false} LoosePermuted(es: seq<UsageEvent>, fs: seq<UsageEvent>, c: nat)
    requires multiset(es) == multiset(fs)
    ensures Loose(es, c) == Loose(fs, c)
    decreases |es|
  {
    if es == [] {
      assert |multiset(fs)| == 0;
      assert fs == [];
    } else {
      var init, e := es[..|es| - 1], es[|es| - 1];
      assert es == init + [e];
      var i := TakenOut(init, e, fs);
      LoosePermuted(init, fs[..i] + fs[i + 1..], c);
      LooseWithout(fs, i, c);
    }
  }

  /** A canonical output has under a slot what is at its place. */
  lemma {:induction false} SlotTotal(out: seq<UsageEvent>, key: string, c: nat)
    requires Canonical(out) && key != ""
    ensures ExactOn(BySlot, key, out, c) == if Place(out, key) < 0 then 0 else Adds(out[Place(out, key)], c)
  {
    if out != [] {
      var init, e := out[..|out| - 1], out[|out| - 1];
      SlotTotal(init, key, c);
      if IsFor(e, key) {
        forall j | 0 <= j < |init| ensures !IsFor(init[j], key) {
          assert init[j] == out[j];
        }
        assert Place(init, key) < 0;
      }
    }
  }

  /** The first usable row of a request. */
  function First(es: seq<UsageEvent>, key: string): Option<UsageEvent> {
    if es == [] then None
    else
      var before, e := First(es[..|es| - 1], key), es[|es| - 1];
      if before.Some? || !Usable(e) || !IsFor(e, key) then before else Some(e)
  }

  function SkipAt(out: seq<UsageEvent>, key: string): Option<bool> {
    if Place(out, key) < 0 then None else Some(out[Place(out, key)].skipRequest)
  }

  lemma MergeOneSkips(out: seq<UsageEvent>, e: UsageEvent, key: string)
    requires Canonical(out)
    ensures SkipAt(MergeOne(out, e), key) ==
            if SkipAt(out, key).Some? || !Usable(e) || !IsFor(e, key) then SkipAt(out, key) else Some(e.skipRequest)
  {
    if Usable(e) {
      var i := Place(out, KeyOf(e));
      if e.request == "" || i < 0 {
        assert (out + [e])[..|out|] == out;
      } else {
        var next := MergeOne(out, e);
        var p, q := Place(next, key), Place(out, key);
        assert p >= 0 ==> IsFor(next[p], key);
        assert q >= 0 ==> IsFor(next[q], key);
        assert p >= 0 && q >= 0 ==> KeyOf(out[p]) == KeyOf(out[q]);
      }
    }
  }

  /** Whether a merged request counts is decided by its first usable row alone. */
  lemma {:induction false} FirstDecides(es: seq<UsageEvent>, key: string)
    ensures SkipAt(Merged(es), key) == match First(es, key) case None => None case Some(e) => Some(e.skipRequest)
    ensures First(es, key).Some? ==> Counts(es, key, First(es, key).value)
    ensures First(es, key).None? ==> forall e :: !Counts(es, key, e)
  {
    if es != [] {
      var init, last := es[..|es| - 1], es[|es| - 1];
      assert es == init + [last];
      FirstDecides(init, key);
      MergedIsCanonical(init);
      MergeOneSkips(Merged(init), last, key);
      forall e { CountsSnoc(init, last, key, e); }
    }
  }

  /** The usable rows of each request agree on whether it counts. */
  ghost predicate SkipAgrees(es: seq<UsageEvent>) {
    forall key, e, f :: Counts(es, key, e) && Counts(es, key, f) ==> e.skipRequest == f.skipRequest
  }

  lemma SkipIgnoresOrder(es: seq<UsageEvent>, fs: seq<UsageEvent>, key: string)
    requires (forall e :: e in es <==> e in fs) && SkipAgrees(es)
    ensures SkipAt(Merged(es), key) == SkipAt(Merged(fs), key)
  {
    FirstDecides(es, key);
    FirstDecides(fs, key);
    assert forall e :: Counts(es, key, e) <==> Counts(fs, key, e);
  }

  lemma LooseOne(e: UsageEvent, c: nat)
    ensures Loose([e], c) == if Usable(e) && e.request == "" then Adds(e, c) else 0
  {
    assert [e][..0] == [];
  }

  lemma ExactOnSnoc(a: Axis, k: string, out: seq<UsageEvent>, e: UsageEvent, c: nat)
    ensures ExactOn(a, k, out + [e], c) == ExactOn(a, k, out, c) + if KeyOn(a, e) == k then Adds(e, c) else 0
  {
    assert (out + [e])[..|out|] == out;
  }

  lemma LooseStep(out: seq<UsageEvent>, e: UsageEvent, c: nat)
    ensures ExactOn(BySlot, "", MergeOne(out, e), c) == ExactOn(BySlot, "", out, c) + Loose([e], c)
  {
    LooseOne(e, c);
    if Usable(e) {
      var i := Place(out, KeyOf(e));
      if e.request == "" || i < 0 {
        ExactOnSnoc(BySlot, "", out, e, c);
      } else {
        UpdateKeepsLoose(out, i, MaxEvent(out[i], e), c);
      }
    }
  }

  lemma {:induction false} LooseTotal(es: seq<UsageEvent>, c: nat)
    ensures ExactOn(BySlot, "", Merged(es), c) == Loose(es, c)
  {
    if es != [] {
      var init, e := es[..|es| - 1], es[|es| - 1];
      LooseOne(e, c);
      hide MergeOne;
      hide ExactOn;
      hide Adds;
      hide Usable;
      LooseTotal(init, c);
      LooseStep(Merged(init), e, c);
    }
  }

  lemma {:induction false} UpdateKeepsLoose(out: seq<UsageEvent>, i: nat, e: UsageEvent, c: nat)
    requires i < |out| && out[i].request != "" && e.request != ""
    ensures ExactOn(BySlot, "", out[i := e], c) == ExactOn(BySlot, "", out, c)
  {
    assert KeyOn(BySlot, e) != "" && KeyOn(BySlot, out[i]) != "";
    hide Adds;
    hide KeyOn;
    var n := |out| - 1;
    var next := out[i := e];
    if i < n {
      assert next[..n] == out[..n][i := e] && next[n] == out[n];
      UpdateKeepsLoose(out[..n], i, e, c);
    } else {
      assert next[..n] == out[..n] && next[n] == e;
    }
  }

  /** The slots of some rows, each once. */
  function Slots(es: seq<UsageEvent>): seq<string> {
    if es == [] then []
    else
      var before, k := Slots(es[..|es| - 1]), KeyOn(BySlot, es[|es| - 1]);
      if k in before then before else before + [k]
  }

  lemma {:induction false} SlotsAreDistinct(es: seq<UsageEvent>)
    ensures Distinct(Slots(es))
    ensures forall k :: k in Slots(es) <==> exists e :: e in es && KeyOn(BySlot, e) == k
  {
    if es != [] {
      hide KeyOn;
      var init, last := es[..|es| - 1], es[|es| - 1];
      SlotsAreDistinct(init);
      assert es == init + [last];
      assert forall e :: e in es <==> e in init || e == last;
    }
  }

  lemma {:induction false} ExactOverSame(ks: seq<string>, x: seq<UsageEvent>, y: seq<UsageEvent>, c: nat)
    requires forall k :: k in ks ==> ExactOn(BySlot, k, x, c) == ExactOn(BySlot, k, y, c)
    ensures ExactOver(BySlot, ks, x, c) == ExactOver(BySlot, ks, y, c)
  {
    if ks != [] {
      assert ks == ks[..|ks| - 1] + [ks[|ks| - 1]];
      ExactOverSame(ks[..|ks| - 1], x, y, c);
    }
  }

  lemma {:induction false} MergedFits(es: seq<UsageEvent>)
    requires AllFit(es)
    ensures AllFit(Merged(es))
  {
    if es != [] {
      MergedFits(es[..|es| - 1]);
    }
  }

  /** Each token counter of the whole is the same however the same rows are ordered, and
      so is the request counter when the rows of each request agree on counting it. */
  lemma WholeIgnoresOrder(es: seq<UsageEvent>, fs: seq<UsageEvent>, c: nat)
    requires AllFit(es) && AllFit(fs) && multiset(es) == multiset(fs) && (c < 4 || SkipAgrees(es))
    ensures AllFit(Merged(es)) && AllFit(Merged(fs))
    ensures SliceCounter(All(Merged(es)), c) == SliceCounter(All(Merged(fs)), c)
  {
    MergedFits(es);
    MergedFits(fs);
    MergedIsCanonical(es);
    MergedIsCanonical(fs);
    TotalIgnoresOrder(es, fs, c);
    AllIsExact(Merged(es), c);
    AllIsExact(Merged(fs), c);
  }

  lemma TotalIgnoresOrder(es: seq<UsageEvent>, fs: seq<UsageEvent>, c: nat)
    requires multiset(es) == multiset(fs) && (c < 4 || SkipAgrees(es))
    ensures Exact(Merged(es), c) == Exact(Merged(fs), c)
  {
    var x, y := Merged(es), Merged(fs);
    var ks := Slots(x + y);
    SlotsAreDistinct(x + y);
    MergedIsCanonical(es);
    MergedIsCanonical(fs);
    SlotsCover(x, y);
    forall k | k in ks ensures ExactOn(BySlot, k, x, c) == ExactOn(BySlot, k, y, c) {
      SlotIgnoresOrder(es, fs, k, c);
    }
    ExactOverSame(ks, x, y, c);
    KeysPartition(BySlot, ks, x, c);
    KeysPartition(BySlot, ks, y, c);
  }

  lemma SlotsCover(x: seq<UsageEvent>, y: seq<UsageEvent>)
    ensures forall i :: 0 <= i < |x| ==> KeyOn(BySlot, x[i]) in Slots(x + y)
    ensures forall i :: 0 <= i < |y| ==> KeyOn(BySlot, y[i]) in Slots(x + y)
  {
    SlotsAreDistinct(x + y);
    forall i | 0 <= i < |x| ensures KeyOn(BySlot, x[i]) in Slots(x + y) {
      assert (x + y)[i] == x[i];
    }
    forall i | 0 <= i < |y| ensures KeyOn(BySlot, y[i]) in Slots(x + y) {
      assert (x + y)[|x| + i] == y[i];
    }
  }

  lemma SlotIgnoresOrder(es: seq<UsageEvent>, fs: seq<UsageEvent>, k: string, c: nat)
    requires multiset(es) == multiset(fs) && (c < 4 || SkipAgrees(es))
    ensures ExactOn(BySlot, k, Merged(es), c) == ExactOn(BySlot, k, Merged(fs), c)
  {
    if k == "" {
      LooseTotal(es, c);
      LooseTotal(fs, c);
      LoosePermuted(es, fs, c);
    } else {
      MergedIsCanonical(es);
      MergedIsCanonical(fs);
      SlotTotal(Merged(es), k, c);
      SlotTotal(Merged(fs), k, c);
      assert forall e :: e in es <==> e in multiset(fs);
      if c < 4 {
        OrderDoesNotMatter(es, fs, k);
      } else {
        SkipIgnoresOrder(es, fs, k);
      }
    }
  }

  // ---------- exactly when the request counter does not depend on the order ----------

  lemma {:induction false} FirstOfConcat(a: seq<UsageEvent>, b: seq<UsageEvent>, key: string)
    ensures First(a + b, key) == if First(a, key).Some? then First(a, key) else First(b, key)
    decreases |b|
  {
    if b == [] {
      assert a + b == a;
    } else {
      assert (a + b)[..|a + b| - 1] == a + b[..|b| - 1];
      FirstOfConcat(a, b[..|b| - 1], key);
    }
  }

  lemma FirstOfPair(e: UsageEvent, f: UsageEvent, key: string)
    ensures First([e, f], key) == if Usable(e) && IsFor(e, key) then Some(e)
                                  else if Usable(f) && IsFor(f, key) then Some(f) else None
  {
    FirstOfOne(e, key);
    FirstOfOne(f, key);
    FirstOfConcat([e], [f], key);
    assert [e] + [f] == [e, f];
  }

  lemma FirstOfOne(e: UsageEvent, key: string)
    ensures First([e], key) == if Usable(e) && IsFor(e, key) then Some(e) else None
  {
    assert [e][..0] == [];
  }

  /** A slot's requests: one, unless its first usable row is not counted. */
  lemma SlotRequests(es: seq<UsageEvent>, key: string)
    requires key != ""
    ensures ExactOn(BySlot, key, Merged(es), 4) ==
            match First(es, key) case None => 0 case Some(e) => if e.skipRequest then 0 else 1
  {
    MergedIsCanonical(es);
    SlotTotal(Merged(es), key, 4);
    FirstDecides(es, key);
  }

  /** Two usable rows of one request, of which only the first is counted. */
  predicate Disagree(e: UsageEvent, f: UsageEvent) {
    Usable(e) && Usable(f) && e.request != "" && f.request != "" && KeyOf(e) == KeyOf(f)
    && !e.skipRequest && f.skipRequest
  }

  /** Swapping the two leaves every other slot. */
  lemma SwapKeepsOthers(e: UsageEvent, f: UsageEvent, rest: seq<UsageEvent>, k: string)
    requires Disagree(e, f) && k != KeyOf(e)
    ensures ExactOn(BySlot, k, Merged([e, f] + rest), 4) == ExactOn(BySlot, k, Merged([f, e] + rest), 4)
  {
    if k == "" {
      LooseTotal([e, f] + rest, 4);
      LooseTotal([f, e] + rest, 4);
      LoosePermuted([e, f] + rest, [f, e] + rest, 4);
    } else {
      SlotRequests([e, f] + rest, k);
      SlotRequests([f, e] + rest, k);
      FirstOfConcat([e, f], rest, k);
      FirstOfConcat([f, e], rest, k);
      FirstOfPair(e, f, k);
      FirstOfPair(f, e, k);
    }
  }

  lemma SwapMovesOne(e: UsageEvent, f: UsageEvent, rest: seq<UsageEvent>)
    requires Disagree(e, f)
    ensures ExactOn(BySlot, KeyOf(e), Merged([e, f] + rest), 4) == 1
    ensures ExactOn(BySlot, KeyOf(e), Merged([f, e] + rest), 4) == 0
  {
    SlotRequests([e, f] + rest, KeyOf(e));
    SlotRequests([f, e] + rest, KeyOf(e));
    FirstOfConcat([e, f], rest, KeyOf(e));
    FirstOfConcat([f, e], rest, KeyOf(e));
    FirstOfPair(e, f, KeyOf(e));
    FirstOfPair(f, e, KeyOf(e));
  }

  lemma {:induction false} ExactOverApart(ks: seq<string>, x: seq<UsageEvent>, y: seq<UsageEvent>, key: string, c: nat)
    requires Distinct(ks)
    requires forall k :: k in ks && k != key ==> ExactOn(BySlot, k, x, c) == ExactOn(BySlot, k, y, c)
    ensures ExactOver(BySlot, ks, x, c) - ExactOver(BySlot, ks, y, c)
            == if key in ks then ExactOn(BySlot, key, x, c) - ExactOn(BySlot, key, y, c) else 0
  {
    if ks != [] {
      var init, last := ks[..|ks| - 1], ks[|ks| - 1];
      assert ks == init + [last];
      ExactOverApart(init, x, y, key, c);
      assert last !in init;
    }
  }

  lemma {:induction false} ExactOnNothing(k: string, es: seq<UsageEvent>, c: nat)
    requires forall i :: 0 <= i < |es| ==> KeyOn(BySlot, es[i]) != k
    ensures ExactOn(BySlot, k, es, c) == 0
  {
    if es != [] {
      ExactOnNothing(k, es[..|es| - 1], c);
    }
  }

  lemma SwapChangesTotal(e: UsageEvent, f: UsageEvent, rest: seq<UsageEvent>)
    requires Disagree(e, f)
    ensures Exact(Merged([e, f] + rest), 4) == Exact(Merged([f, e] + rest), 4) + 1
  {
    var x, y := Merged([e, f] + rest), Merged([f, e] + rest);
    var ks := Slots(x + y);
    SlotsAreDistinct(x + y);
    SlotsCover(x, y);
    SwapMovesOne(e, f, rest);
    if KeyOf(e) !in ks {
      ExactOnNothing(KeyOf(e), x, 4);
    }
    forall k | k in ks && k != KeyOf(e) ensures ExactOn(BySlot, k, x, 4) == ExactOn(BySlot, k, y, 4) {
      SwapKeepsOthers(e, f, rest, k);
    }
    ExactOverApart(ks, x, y, KeyOf(e), 4);
    KeysPartition(BySlot, ks, x, 4);
    KeysPartition(BySlot, ks, y, 4);
  }

  /** The request counter of the whole. */
  ghost function Requests(es: seq<UsageEvent>): int
    requires AllFit(es)
  {
    MergedFits(es);
    SliceCounter(All(Merged(es)), 4)
  }

  lemma RequestsAreExact(es: seq<UsageEvent>)
    requires AllFit(es)
    ensures Requests(es) == Exact(Merged(es), 4)
  {
    MergedFits(es);
    MergedIsCanonical(es);
    AllIsExact(Merged(es), 4);
  }

  lemma FitsInAnyOrder(es: seq<UsageEvent>, fs: seq<UsageEvent>)
    requires AllFit(es) && multiset(es) == multiset(fs)
    ensures AllFit(fs)
  {
    forall i | 0 <= i < |fs| ensures CountersFit(fs[i]) {
      assert fs[i] in multiset(fs);
      assert fs[i] in es;
    }
  }

  /** Two disagreeing rows ahead of any others: swapping them changes the counter by one. */
  lemma OrderChangesRequests(e: UsageEvent, f: UsageEvent, rest: seq<UsageEvent>)
    requires Disagree(e, f) && AllFit([e, f] + rest)
    ensures AllFit([f, e] + rest) && Requests([e, f] + rest) == Requests([f, e] + rest) + 1
  {
    SwappedIsPermuted(e, f, rest);
    FitsInAnyOrder([e, f] + rest, [f, e] + rest);
    SwapChangesTotal(e, f, rest);
    RequestsAreExact([e, f] + rest);
    RequestsAreExact([f, e] + rest);
  }

  lemma SwappedIsPermuted(e: UsageEvent, f: UsageEvent, rest: seq<UsageEvent>)
    ensures multiset([e, f] + rest) == multiset([f, e] + rest) == multiset{e, f} + multiset(rest)
  {
  }

  ghost predicate SameRequests(es: seq<UsageEvent>, fs: seq<UsageEvent>)
    requires AllFit(es)
  {
    AllFit(fs) && Requests(fs) == Requests(es)
  }

  /** The request counter is the same for every order of the rows exactly when the usable
      rows of each request agree on counting it. */
  lemma RequestsIgnoreOrderIff(es: seq<UsageEvent>)
    requires AllFit(es)
    ensures (forall fs :: multiset(fs) == multiset(es) ==> SameRequests(es, fs)) <==> SkipAgrees(es)
  {
    if SkipAgrees(es) {
      forall fs | multiset(fs) == multiset(es) ensures SameRequests(es, fs) {
        FitsInAnyOrder(es, fs);
        WholeIgnoresOrder(es, fs, 4);
      }
    } else {
      var key, e, f :| Counts(es, key, e) && Counts(es, key, f) && e.skipRequest != f.skipRequest;
      if e.skipRequest {
        PairChangesRequests(es, f, e);
      } else {
        PairChangesRequests(es, e, f);
      }
    }
  }

  lemma PairChangesRequests(es: seq<UsageEvent>, e: UsageEvent, f: UsageEvent)
    requires AllFit(es) && e in es && f in es && Disagree(e, f)
    ensures exists fs :: multiset(fs) == multiset(es) && !SameRequests(es, fs)
  {
    var rest := WithoutPair(es, e, f);
    SwappedIsPermuted(e, f, rest);
    FitsInAnyOrder(es, [e, f] + rest);
    OrderChangesRequests(e, f, rest);
    assert !SameRequests(es, [e, f] + rest) || !SameRequests(es, [f, e] + rest);
  }

  /** The rows without one e and one f. */
  lemma WithoutPair(es: seq<UsageEvent>, e: UsageEvent, f: UsageEvent) returns (rest: seq<UsageEvent>)
    requires e in es && f in es && e != f
    ensures multiset(es) == multiset{e, f} + multiset(rest)
  {
    var once := WithoutOne(es, e);
    assert f in multiset(es);
    assert multiset{e}[f] == 0;
    assert f in multiset(once);
    rest := WithoutOne(once, f);
  }

  lemma WithoutOne(es: seq<UsageEvent>, e: UsageEvent) returns (rest: seq<UsageEvent>)
    requires e in es
    ensures multiset(es) == multiset{e} + multiset(rest)
  {
    var i :| 0 <= i < |es| && es[i] == e;
    rest := es[..i] + es[i + 1..];
    assert es == es[..i] + [e] + es[i + 1..];
  }

  // ---------- merged rows, said with the fields ----------

  const NUL := 0 as char

  /** A row of the request with no negative counter. */
  predicate ForRequest(e: UsageEvent, source: string, request: string) {
    && e.source == source && e.request == request
    && e.counters.miss >= 0 && e.counters.cacheRead >= 0 && e.counters.cacheCreate >= 0 && e.counters.output >= 0
  }

  ghost predicate PlainSources(es: seq<UsageEvent>) {
    forall i :: 0 <= i < |es| ==> NUL !in es[i].source
  }

  lemma JoinIsInjective(a: string, x: string, b: string, y: string)
    requires NUL !in a && NUL !in b
    ensures a + [NUL] + x == b + [NUL] + y <==> a == b && x == y
  {
    var s, t := a + [NUL] + x, b + [NUL] + y;
    if s == t {
      assert s[|a|] == NUL && t[|b|] == NUL;
      assert |a| == |b|;
      assert a == s[..|a|] && b == t[..|b|] && x == s[|a| + 1..] && y == t[|b| + 1..];
    }
  }

  lemma KeyIsRequest(e: UsageEvent, source: string, request: string)
    requires NUL !in e.source && NUL !in source && request != ""
    ensures Usable(e) && IsFor(e, source + [NUL] + request) <==> ForRequest(e, source, request)
  {
    JoinIsInjective(e.source, e.request, source, request);
  }

  /** The rows of a request, the first of them raised to the others one by one. */
  function Folded(es: seq<UsageEvent>, key: string): Option<UsageEvent> {
    if es == [] then None
    else
      var before, e := Folded(es[..|es| - 1], key), es[|es| - 1];
      if !Usable(e) || !IsFor(e, key) then before
      else if before.None? then Some(e)
      else Some(MaxEvent(before.value, e))
  }

  function RowAt(out: seq<UsageEvent>, key: string): Option<UsageEvent> {
    if Place(out, key) < 0 then None else Some(out[Place(out, key)])
  }

  lemma RowUpdated(out: seq<UsageEvent>, i: nat, e: UsageEvent, key: string)
    requires Canonical(out) && i < |out| && out[i].request != "" && e.request != "" && KeyOf(e) == KeyOf(out[i])
    ensures RowAt(out[i := e], key) == if KeyOf(e) == key then Some(e) else RowAt(out, key)
  {
    var next := out[i := e];
    var p, q := Place(next, key), Place(out, key);
    assert p >= 0 ==> IsFor(next[p], key);
    assert q >= 0 ==> IsFor(next[q], key);
    assert p >= 0 && q >= 0 ==> KeyOf(out[p]) == KeyOf(out[q]);
  }

  lemma {:induction false} MergedFolds(es: seq<UsageEvent>, key: string)
    ensures RowAt(Merged(es), key) == Folded(es, key)
  {
    if es != [] {
      var init, e := es[..|es| - 1], es[|es| - 1];
      var out := Merged(init);
      MergedFolds(init, key);
      MergedIsCanonical(init);
      if Usable(e) {
        var i := Place(out, KeyOf(e));
        if e.request == "" || i < 0 {
          assert (out + [e])[..|out|] == out;
        } else {
          RowUpdated(out, i, MaxEvent(out[i], e), key);
        }
      }
    }
  }

  /** Everything but counters, time and quality is as in the first row of the request. */
  ghost predicate StartsAs(m: UsageEvent, es: seq<UsageEvent>, source: string, request: string, i: nat) {
    && i < |es| && ForRequest(es[i], source, request)
    && (forall j :: 0 <= j < i ==> !ForRequest(es[j], source, request))
    && m == es[i].(counters := m.counters, ts := m.ts, quality := m.quality)
  }

  predicate HasQuality(es: seq<UsageEvent>, source: string, request: string, q: Quality) {
    exists e :: e in es && ForRequest(e, source, request) && e.quality == q
  }

  /** The worst quality of the request's rows, or what its first row says. */
  predicate WorstOf(q: Quality, es: seq<UsageEvent>, source: string, request: string, first: Quality) {
    if HasQuality(es, source, request, Degraded) then q == Degraded
    else if HasQuality(es, source, request, Estimated) then q == Estimated
    else if HasQuality(es, source, request, Authoritative) then q == Authoritative
    else q == first
  }

  lemma QualitySnoc(es: seq<UsageEvent>, e: UsageEvent, source: string, request: string, q: Quality)
    ensures HasQuality(es + [e], source, request, q) <==>
            HasQuality(es, source, request, q) || (ForRequest(e, source, request) && e.quality == q)
  {
    assert forall x :: x in es + [e] <==> x in es || x == e;
  }

  lemma {:induction false} FoldedIs(es: seq<UsageEvent>, source: string, request: string) returns (i: nat)
    requires PlainSources(es) && NUL !in source && request != ""
    ensures var f := Folded(es, source + [NUL] + request);
            if f.None? then forall e :: e in es ==> !ForRequest(e, source, request)
            else
              && StartsAs(f.value, es, source, request, i)
              && WorstOf(f.value.quality, es, source, request, es[i].quality)
  {
    var key := source + [NUL] + request;
    i := 0;
    if es != [] {
      var init, e := es[..|es| - 1], es[|es| - 1];
      i := FoldedIs(init, source, request);
      assert es == init + [e];
      KeyIsRequest(e, source, request);
      forall j | 0 <= j < |init| ensures es[j] == init[j] {
      }
      QualitySnoc(init, e, source, request, Degraded);
      QualitySnoc(init, e, source, request, Estimated);
      QualitySnoc(init, e, source, request, Authoritative);
      if Folded(init, key).None? && ForRequest(e, source, request) {
        i := |init|;
        forall j | 0 <= j < |init| ensures !ForRequest(es[j], source, request) {
          assert es[j] in init;
        }
        forall q ensures !HasQuality(init, source, request, q) {
        }
      }
      hide HasQuality;
      hide ForRequest;
      hide IsFor;
      hide Usable;
      hide MaxCounters;
      hide Later;
    }
  }

  /** The latest time of the request's rows; the zero time only when none has another. */
  ghost predicate TimeOf(ts: int, es: seq<UsageEvent>, source: string, request: string) {
    && (exists e :: e in es && ForRequest(e, source, request) && e.ts == ts)
    && forall e :: e in es && ForRequest(e, source, request) && e.ts != ZERO_TIME ==> ts != ZERO_TIME && e.ts <= ts
  }

  ghost predicate GreatestOf(c: Counters, es: seq<UsageEvent>, source: string, request: string) {
    && (forall e :: e in es && ForRequest(e, source, request) ==>
          && e.counters.miss <= c.miss && e.counters.cacheRead <= c.cacheRead
          && e.counters.cacheCreate <= c.cacheCreate && e.counters.output <= c.output
          && e.counters.reasoning <= c.reasoning)
    && (exists e :: e in es && ForRequest(e, source, request) && e.counters.miss == c.miss)
    && (exists e :: e in es && ForRequest(e, source, request) && e.counters.cacheRead == c.cacheRead)
    && (exists e :: e in es && ForRequest(e, source, request) && e.counters.cacheCreate == c.cacheCreate)
    && (exists e :: e in es && ForRequest(e, source, request) && e.counters.output == c.output)
    && (exists e :: e in es && ForRequest(e, source, request) && e.counters.reasoning == c.reasoning)
  }

  /** What becomes of a request: rows with a negative counter aside, its rows are one, the first of
      them with the greatest of each counter, the latest time and the worst quality. */
  lemma RequestIsOneRow(es: seq<UsageEvent>, source: string, request: string, m: UsageEvent)
    requires PlainSources(es) && NUL !in source && request != ""
    requires m in Merged(es) && m.source == source && m.request == request
    ensures exists i: nat ::
              StartsAs(m, es, source, request, i) && WorstOf(m.quality, es, source, request, es[i].quality)
    ensures GreatestOf(m.counters, es, source, request) && TimeOf(m.ts, es, source, request)
    ensures forall n :: n in Merged(es) && n.source == source && n.request == request ==> n == m
  {
    var key := source + [NUL] + request;
    MergedIsCanonical(es);
    OnlyRow(Merged(es), key, m);
    MergedFolds(es, key);
    var i := FoldedIs(es, source, request);
    MergedGathers(es, key);
    RequestCounters(es, source, request);
    forall n | n in Merged(es) && n.source == source && n.request == request ensures n == m {
      OnlyRow(Merged(es), key, n);
    }
  }

  lemma OnlyRow(out: seq<UsageEvent>, key: string, m: UsageEvent)
    requires Canonical(out) && m in out && IsFor(m, key)
    ensures RowAt(out, key) == Some(m) && AtPlace(out, key) == Some(Gathering(m.counters, m.ts))
  {
    var k :| 0 <= k < |out| && out[k] == m;
    assert Place(out, key) >= 0;
    assert IsFor(out[Place(out, key)], key);
  }

  lemma RequestCounters(es: seq<UsageEvent>, source: string, request: string)
    requires PlainSources(es) && NUL !in source && request != ""
    requires Gathered(es, source + [NUL] + request).Some?
    ensures var g := Gathered(es, source + [NUL] + request).value;
            GreatestOf(g.counters, es, source, request) && TimeOf(g.ts, es, source, request)
  {
    var key := source + [NUL] + request;
    forall e | e in es ensures Counts(es, key, e) <==> ForRequest(e, source, request) {
      KeyIsRequest(e, source, request);
    }
    GatheredIsLatest(es, key);
    GatheredIsGreatest(es, key, 0);
    GatheredIsGreatest(es, key, 1);
    GatheredIsGreatest(es, key, 2);
    GatheredIsGreatest(es, key, 3);
    GatheredIsGreatest(es, key, 4);
    hide Counts;
    hide ForRequest;
  }

  /** Every usable row of a request is in some merged row. */
  lemma RequestIsThere(es: seq<UsageEvent>, source: string, request: string, e: UsageEvent)
    requires PlainSources(es) && NUL !in source && request != "" && e in es && ForRequest(e, source, request)
    ensures exists m :: m in Merged(es) && m.source == source && m.request == request
  {
    var key := source + [NUL] + request;
    var i := FoldedIs(es, source, request);
    MergedFolds(es, key);
    assert RowAt(Merged(es), key).Some?;
  }

  /** The rows without a request and without a negative counter. */
  function WithoutRequest(es: seq<UsageEvent>): seq<UsageEvent> {
    if es == [] then []
    else
      var before, e := WithoutRequest(es[..|es| - 1]), es[|es| - 1];
      if ForRequest(e, e.source, "") then before + [e] else before
  }

  /** They stay as they are, each of its own. */
  lemma {:induction false} WithoutRequestStay(es: seq<UsageEvent>)
    ensures WithoutRequest(Merged(es)) == WithoutRequest(es)
  {
    if es != [] {
      var init, e := es[..|es| - 1], es[|es| - 1];
      var out := Merged(init);
      WithoutRequestStay(init);
      if Usable(e) {
        var i := Place(out, KeyOf(e));
        if e.request == "" || i < 0 {
          assert (out + [e])[..|out|] == out;
        } else {
          StayUpdated(out, i, MaxEvent(out[i], e));
        }
      }
    }
  }

  lemma {:induction false} StayUpdated(out: seq<UsageEvent>, i: nat, e: UsageEvent)
    requires i < |out| && out[i].request != "" && e.request != ""
    ensures WithoutRequest(out[i := e]) == WithoutRequest(out)
  {
    var n := |out| - 1;
    var next := out[i := e];
    if i < n {
      assert next[..n] == out[..n][i := e] && next[n] == out[n];
      StayUpdated(out[..n], i, e);
    } else {
      assert next[..n] == out[..n] && next[n] == e;
    }
  }

  // ---------- turns ----------

  function AddTurn(m: map<string, Slice>, source: string): map<string, Slice> {
    m[source := SliceAt(m, source).(turns := SliceAt(m, source).turns + 1)]
  }

  /** The user turns of a source, counted beside its rows. */
  function WithTurns(m: map<string, Slice>, turns: seq<string>): map<string, Slice> {
    if turns == [] then m else AddTurn(WithTurns(m, turns[..|turns| - 1]), turns[|turns| - 1])
  }

  lemma {:induction false} TurnsKeepCounters(m: map<string, Slice>, turns: seq<string>, k: string, c: nat)
    ensures SliceCounter(SliceAt(WithTurns(m, turns), k), c) == SliceCounter(SliceAt(m, k), c)
    ensures k in WithTurns(m, turns) <==> k in m || k in turns
  {
    if turns != [] {
      assert turns == turns[..|turns| - 1] + [turns[|turns| - 1]];
      TurnsKeepCounters(m, turns[..|turns| - 1], k, c);
    }
  }

  lemma {:induction false} TurnsKeepFit(m: map<string, Slice>, turns: seq<string>)
    requires SlicesFit(m)
    ensures SlicesFit(WithTurns(m, turns))
  {
    if turns != [] {
      TurnsKeepFit(m, turns[..|turns| - 1]);
    }
  }

  lemma {:induction false} OverSame(m: map<string, Slice>, n: map<string, Slice>, ks: seq<string>, c: nat)
    requires SlicesFit(m) && SlicesFit(n)
             && forall k :: SliceCounter(SliceAt(m, k), c) == SliceCounter(SliceAt(n, k), c)
    ensures Over(m, ks, c) == Over(n, ks, c)
  {
    if ks != [] {
      OverSame(m, n, ks[..|ks| - 1], c);
    }
  }

  /** The source axis still adds up with turns counted in it, sources that have nothing but
      turns included. */
  lemma SourcesAddUp(es: seq<UsageEvent>, turns: seq<string>, ks: seq<string>, c: nat)
    requires Countable(es) && Distinct(ks) && forall k :: k in WithTurns(Group(BySource, es), turns) <==> k in ks
    ensures SlicesFit(WithTurns(Group(BySource, es), turns))
    ensures Over(WithTurns(Group(BySource, es), turns), ks, c) == SliceCounter(All(es), c)
  {
    var m := Group(BySource, es);
    TurnsKeepFit(m, turns);
    forall k ensures SliceCounter(SliceAt(WithTurns(m, turns), k), c) == SliceCounter(SliceAt(m, k), c)
                     && (k in WithTurns(m, turns) <==> k in m || k in turns) {
      TurnsKeepCounters(m, turns, k, c);
    }
    OverSame(WithTurns(m, turns), m, ks, c);
    AxisAddsUp(BySource, es, ks, c);
  }

  // ---------- what a slice is a slice of ----------

  /** The rows of a source, a vendor, a model name of the price list, as far as they are given. */
  function RowsOf(es: seq<UsageEvent>, source: Option<string>, vendor: Option<string>, model: Option<string>,
                  norm: UsageEvent -> string): seq<UsageEvent>
  {
    if es == [] then []
    else
      var before, e := RowsOf(es[..|es| - 1], source, vendor, model, norm), es[|es| - 1];
      if (source.Some? ==> e.source == source.value) && (vendor.Some? ==> e.vendor == vendor.value)
         && (model.Some? ==> norm(e) == model.value)
      then before + [e] else before
  }

  /** What some rows hold, counted exactly. */
  datatype Tally = Tally(miss: int, cacheRead: int, cacheCreate: int, output: int, requests: nat)

  function TallyOf(rows: seq<UsageEvent>): Tally {
    if rows == [] then Tally(0, 0, 0, 0, 0)
    else
      var t, e := TallyOf(rows[..|rows| - 1]), rows[|rows| - 1];
      Tally(t.miss + e.counters.miss, t.cacheRead + e.counters.cacheRead, t.cacheCreate + e.counters.cacheCreate,
            t.output + e.counters.output, if e.skipRequest then t.requests else t.requests + 1)
  }

  predicate Has(rows: seq<UsageEvent>, q: Quality) {
    exists i :: 0 <= i < |rows| && rows[i].quality == q
  }

  /** The worst quality among some rows; what is merely absent does not count. */
  predicate IsWorst(q: Quality, rows: seq<UsageEvent>) {
    if Has(rows, Degraded) then q == Degraded
    else if Has(rows, Estimated) then q == Estimated
    else if Has(rows, Authoritative) then q == Authoritative
    else q == Unset
  }

  /** The slice holds exactly these rows: every counter is their sum, or the greatest int64. */
  ghost predicate Sums(s: Slice, rows: seq<UsageEvent>) {
    var t := TallyOf(rows);
    && s.miss == Clamp(t.miss) && s.cacheRead == Clamp(t.cacheRead) && s.cacheCreate == Clamp(t.cacheCreate)
    && s.output == Clamp(t.output) && s.requests == t.requests && IsWorst(s.quality, rows)
  }

  lemma {:induction false} TallyIsUsable(rows: seq<UsageEvent>)
    requires Countable(rows)
    ensures var t := TallyOf(rows); t.miss >= 0 && t.cacheRead >= 0 && t.cacheCreate >= 0 && t.output >= 0
  {
    if rows != [] {
      TallyIsUsable(rows[..|rows| - 1]);
    }
  }

  lemma WorstSnoc(q: Quality, rows: seq<UsageEvent>, e: UsageEvent)
    requires IsWorst(q, rows)
    ensures IsWorst(if QualityRank(e.quality) > QualityRank(q) then e.quality else q, rows + [e])
  {
    var more := rows + [e];
    assert more[|rows|] == e && forall i :: 0 <= i < |rows| ==> more[i] == rows[i];
    forall x ensures Has(more, x) <==> Has(rows, x) || e.quality == x {
      if Has(rows, x) {
        var i :| 0 <= i < |rows| && rows[i].quality == x;
        assert more[i].quality == x;
      }
    }
    hide Has;
  }

  lemma SumsSnoc(s: Slice, rows: seq<UsageEvent>, e: UsageEvent)
    requires InInt64(s) && Countable(rows) && CountersFit(e) && Usable(e) && Sums(s, rows)
    ensures Sums(AddSlice(s, e), rows + [e])
  {
    TallyIsUsable(rows);
    WorstSnoc(s.quality, rows, e);
    assert (rows + [e])[..|rows|] == rows;
    hide IsWorst;
  }

  /** The rows under one key. */
  function RowsAt(a: Axis, es: seq<UsageEvent>, k: string): seq<UsageEvent> {
    if es == [] then []
    else
      var before, e := RowsAt(a, es[..|es| - 1], k), es[|es| - 1];
      if KeyOn(a, e) == k then before + [e] else before
  }

  lemma {:induction false} RowsAtCount(a: Axis, es: seq<UsageEvent>, k: string)
    requires Countable(es)
    ensures Countable(RowsAt(a, es, k))
  {
    if es != [] {
      RowsAtCount(a, es[..|es| - 1], k);
    }
  }

  /** One more row goes into its own slice only. */
  lemma GroupSnoc(a: Axis, es: seq<UsageEvent>, k: string)
    requires AllFit(es) && es != []
    ensures var init, e := es[..|es| - 1], es[|es| - 1];
            && SliceAt(Group(a, es), k)
               == (if KeyOn(a, e) == k then AddSlice(SliceAt(Group(a, init), k), e) else SliceAt(Group(a, init), k))
            && (k in Group(a, es) <==> k in Group(a, init) || KeyOn(a, e) == k)
  {
    hide KeyOn;
    hide AddSlice;
  }

  lemma {:induction false} GroupSums(a: Axis, es: seq<UsageEvent>, k: string)
    requires Countable(es)
    ensures Sums(SliceAt(Group(a, es), k), RowsAt(a, es, k))
    ensures k in Group(a, es) <==> RowsAt(a, es, k) != []
  {
    if es == [] {
      assert SliceAt(Group(a, es), k) == EMPTY;
    } else {
      var init, e := es[..|es| - 1], es[|es| - 1];
      GroupSums(a, init, k);
      GroupSnoc(a, es, k);
      RowsAtCount(a, init, k);
      hide KeyOn;
      hide Sums;
      hide AddSlice;
      hide Group;
      if KeyOn(a, e) == k {
        SumsSnoc(SliceAt(Group(a, init), k), RowsAt(a, init, k), e);
      }
    }
  }

  lemma {:induction false} AllSums(es: seq<UsageEvent>)
    requires Countable(es)
    ensures Sums(All(es), es)
  {
    if es != [] {
      var init, e := es[..|es| - 1], es[|es| - 1];
      AllSums(init);
      assert es == init + [e];
      SumsSnoc(All(init), init, e);
      hide Sums;
    }
  }

  /** The first part of a joined key is free of the separator in all rows. */
  ghost predicate Joinable(es: seq<UsageEvent>) {
    forall i :: 0 <= i < |es| ==> NUL !in es[i].source && NUL !in es[i].vendor
  }

  /** What each axis groups by, said with the fields themselves. */
  lemma {:induction false} AxesSelect(es: seq<UsageEvent>, s: string, v: string, m: string, norm: UsageEvent -> string)
    ensures RowsAt(BySource, es, s) == RowsOf(es, Some(s), None, None, norm)
    ensures RowsAt(ByVendor, es, v) == RowsOf(es, None, Some(v), None, norm)
    ensures Joinable(es) && NUL !in s ==>
              RowsAt(ByPair, es, s + [NUL] + v) == RowsOf(es, Some(s), Some(v), None, norm)
    ensures Joinable(es) && NUL !in v ==>
              RowsAt(ByModel(norm), es, v + [NUL] + m) == RowsOf(es, None, Some(v), Some(m), norm)
  {
    if es != [] {
      var init, e := es[..|es| - 1], es[|es| - 1];
      AxesSelect(init, s, v, m, norm);
      if Joinable(es) {
        if NUL !in s {
          JoinIsInjective(e.source, e.vendor, s, v);
        }
        if NUL !in v {
          JoinIsInjective(e.vendor, norm(e), v, m);
        }
      }
    }
  }

  lemma {:induction false} TurnsCount(m: map<string, Slice>, turns: seq<string>, k: string)
    ensures SliceAt(WithTurns(m, turns), k) == SliceAt(m, k).(turns := SliceAt(m, k).turns + multiset(turns)[k])
    ensures k in WithTurns(m, turns) <==> k in m || k in turns
  {
    if turns != [] {
      assert turns == turns[..|turns| - 1] + [turns[|turns| - 1]];
      TurnsCount(m, turns[..|turns| - 1], k);
    }
  }

  /** The slice of a source, with its user turns. */
  ghost predicate SourceSlice(m: map<string, Slice>, s: string, rows: seq<UsageEvent>, turns: seq<string>) {
    && Sums(SliceAt(m, s), rows) && SliceAt(m, s).turns == multiset(turns)[s]
    && (s in m <==> rows != [] || s in turns)
  }

  ghost predicate SliceUnder(m: map<string, Slice>, k: string, rows: seq<UsageEvent>) {
    Sums(SliceAt(m, k), rows) && SliceAt(m, k).turns == 0 && (k in m <==> rows != [])
  }

  lemma {:induction false} GroupHasNoTurns(a: Axis, es: seq<UsageEvent>, k: string)
    requires AllFit(es)
    ensures SliceAt(Group(a, es), k).turns == 0
  {
    if es != [] {
      GroupHasNoTurns(a, es[..|es| - 1], k);
    }
  }

  lemma GroupIsUnder(a: Axis, es: seq<UsageEvent>, k: string)
    requires Countable(es)
    ensures SliceUnder(Group(a, es), k, RowsAt(a, es, k))
  {
    GroupSums(a, es, k);
    GroupHasNoTurns(a, es, k);
  }

  /** Every key of a joined axis is that of some row. */
  lemma {:induction false} KeysAreRows(a: Axis, es: seq<UsageEvent>, k: string)
    requires AllFit(es) && k in Group(a, es)
    ensures exists i :: 0 <= i < |es| && KeyOn(a, es[i]) == k
  {
    hide KeyOn;
    var init := es[..|es| - 1];
    if KeyOn(a, es[|es| - 1]) != k {
      KeysAreRows(a, init, k);
      var i :| 0 <= i < |init| && KeyOn(a, init[i]) == k;
      assert es[i] == init[i];
    }
  }

  lemma SourcesAreUnder(es: seq<UsageEvent>, turns: seq<string>, s: string)
    requires Countable(es)
    ensures SourceSlice(WithTurns(Group(BySource, es), turns), s, RowsAt(BySource, es, s), turns)
  {
    GroupIsUnder(BySource, es, s);
    TurnsCount(Group(BySource, es), turns, s);
  }

  /** What the pass over the merged rows finds on every axis. */
  lemma AxesAreRows(es: seq<UsageEvent>, turns: seq<string>, norm: UsageEvent -> string)
    requires AllFit(es)
    ensures AllFit(Merged(es))
    ensures var m := Merged(es);
            && Sums(All(m).(turns := |turns|), m)
            && (forall s ::
                  SourceSlice(WithTurns(Group(BySource, m), turns), s, RowsOf(m, Some(s), None, None, norm), turns))
            && (forall v :: SliceUnder(Group(ByVendor, m), v, RowsOf(m, None, Some(v), None, norm)))
            && (Joinable(m) ==> forall s, v :: NUL !in s ==>
                  SliceUnder(Group(ByPair, m), s + [NUL] + v, RowsOf(m, Some(s), Some(v), None, norm)))
            && (Joinable(m) ==> forall v, n :: NUL !in v ==>
                  SliceUnder(Group(ByModel(norm), m), v + [NUL] + n, RowsOf(m, None, Some(v), Some(n), norm)))
            && (forall k :: k in Group(ByPair, m) ==> exists e :: e in m && k == e.source + [NUL] + e.vendor)
            && (forall k :: k in Group(ByModel(norm), m) ==> exists e :: e in m && k == e.vendor + [NUL] + norm(e))
  {
    var m := Merged(es);
    MergedFits(es);
    MergedIsCanonical(es);
    assert Countable(m);
    AllSums(m);
    forall s ensures SourceSlice(WithTurns(Group(BySource, m), turns), s, RowsOf(m, Some(s), None, None, norm), turns) {
      SourcesAreUnder(m, turns, s);
      AxesSelect(m, s, "", "", norm);
    }
    forall v ensures SliceUnder(Group(ByVendor, m), v, RowsOf(m, None, Some(v), None, norm)) {
      GroupIsUnder(ByVendor, m, v);
      AxesSelect(m, "", v, "", norm);
    }
    forall s, v | Joinable(m) && NUL !in s
      ensures SliceUnder(Group(ByPair, m), s + [NUL] + v, RowsOf(m, Some(s), Some(v), None, norm))
    {
      GroupIsUnder(ByPair, m, s + [NUL] + v);
      AxesSelect(m, s, v, "", norm);
    }
    forall v, n | Joinable(m) && NUL !in v
      ensures SliceUnder(Group(ByModel(norm), m), v + [NUL] + n, RowsOf(m, None, Some(v), Some(n), norm))
    {
      GroupIsUnder(ByModel(norm), m, v + [NUL] + n);
      AxesSelect(m, "", v, n, norm);
    }
    forall k | k in Group(ByPair, m) ensures exists e :: e in m && k == e.source + [NUL] + e.vendor {
      KeysAreRows(ByPair, m, k);
    }
    forall k | k in Group(ByModel(norm), m) ensures exists e :: e in m && k == e.vendor + [NUL] + norm(e) {
      KeysAreRows(ByModel(norm), m, k);
    }
  }

  // ---------- the program ----------

  /** Where each request's row is. */
  ghost predicate Indexes(index: map<string, nat>, out: seq<UsageEvent>) {
    && (forall k :: k in index ==> index[k] < |out| && IsFor(out[index[k]], k))
    && forall i :: 0 <= i < |out| && out[i].request != "" ==> KeyOf(out[i]) in index
  }

  /** mergeByRequest. */
  method MergeByRequest(es: seq<UsageEvent>) returns (out: seq<UsageEvent>)
    ensures out == Merged(es)
  {
    out := [];
    var index: map<string, nat> := map[];
    for n := 0 to |es|
      invariant out == Merged(es[..n]) && Canonical(out) && Indexes(index, out)
    {
      var e := es[n];
      assert es[..n + 1][..n] == es[..n];
      MergeOneKeepsCanonical(out, e);
      if !Usable(e) {
        continue;
      }
      if e.request == "" {
        out := out + [e];
        continue;
      }
      var key := KeyOf(e);
      if key in index {
        out := out[index[key] := MaxEvent(out[index[key]], e)];
        continue;
      }
      index := index[key := |out|];
      out := out + [e];
    }
    assert es[..|es|] == es;
  }

  /** The counters of AggregateAt, over every axis in one pass. */
  method AggregateAt(es: seq<UsageEvent>, turns: seq<string>, norm: UsageEvent -> string)
    returns (all: Slice, bySource: map<string, Slice>, byVendor: map<string, Slice>, byPair: map<string, Slice>,
             byModel: map<string, Slice>)
    requires AllFit(es)
    ensures AllFit(Merged(es)) && all == All(Merged(es)).(turns := |turns|)
    ensures bySource == WithTurns(Group(BySource, Merged(es)), turns)
    ensures byVendor == Group(ByVendor, Merged(es)) && byPair == Group(ByPair, Merged(es))
    ensures byModel == Group(ByModel(norm), Merged(es))
    ensures Sums(all, Merged(es))
    ensures forall s :: SourceSlice(bySource, s, RowsOf(Merged(es), Some(s), None, None, norm), turns)
    ensures forall v :: SliceUnder(byVendor, v, RowsOf(Merged(es), None, Some(v), None, norm))
    ensures Joinable(Merged(es)) ==> forall s, v :: NUL !in s ==>
              SliceUnder(byPair, s + [NUL] + v, RowsOf(Merged(es), Some(s), Some(v), None, norm))
    ensures Joinable(Merged(es)) ==> forall v, m :: NUL !in v ==>
              SliceUnder(byModel, v + [NUL] + m, RowsOf(Merged(es), None, Some(v), Some(m), norm))
    ensures forall k :: k in byPair ==> exists e :: e in Merged(es) && k == e.source + [NUL] + e.vendor
    ensures forall k :: k in byModel ==> exists e :: e in Merged(es) && k == e.vendor + [NUL] + norm(e)
  {
    var merged := MergeByRequest(es);
    MergedFits(es);
    AxesAreRows(es, turns, norm);
    all, bySource, byVendor, byPair, byModel := FoldAxes(merged, norm);
    all, bySource := CountTurns(all, bySource, turns);
  }

  method FoldAxes(merged: seq<UsageEvent>, norm: UsageEvent -> string)
    returns (all: Slice, bySource: map<string, Slice>, byVendor: map<string, Slice>, byPair: map<string, Slice>,
             byModel: map<string, Slice>)
    requires AllFit(merged)
    ensures all == All(merged) && bySource == Group(BySource, merged) && byVendor == Group(ByVendor, merged)
    ensures byPair == Group(ByPair, merged) && byModel == Group(ByModel(norm), merged)
  {
    all, bySource, byVendor, byPair, byModel := EMPTY, map[], map[], map[], map[];
    for i := 0 to |merged|
      invariant all == All(merged[..i]) && bySource == Group(BySource, merged[..i])
                && byVendor == Group(ByVendor, merged[..i])
      invariant byPair == Group(ByPair, merged[..i]) && byModel == Group(ByModel(norm), merged[..i])
    {
      assert merged[..i + 1][..i] == merged[..i];
      var e := merged[i];
      all := AddSlice(all, e);
      bySource := AddTo(bySource, BySource, e);
      byVendor := AddTo(byVendor, ByVendor, e);
      byPair := AddTo(byPair, ByPair, e);
      byModel := AddTo(byModel, ByModel(norm), e);
    }
    assert merged[..|merged|] == merged;
  }

  method CountTurns(s: Slice, m: map<string, Slice>, turns: seq<string>)
    returns (all: Slice, bySource: map<string, Slice>)
    ensures all == s.(turns := s.turns + |turns|) && bySource == WithTurns(m, turns)
  {
    all, bySource := s, m;
    for i := 0 to |turns|
      invariant all == s.(turns := s.turns + i) && bySource == WithTurns(m, turns[..i])
    {
      assert turns[..i + 1][..i] == turns[..i];
      all := all.(turns := all.turns + 1);
      bySource := AddTurn(bySource, turns[i]);
    }
    assert turns[..|turns|] == turns;
  }

  /** getSlice and addSlice on one axis. */
  method AddTo(m: map<string, Slice>, a: Axis, e: UsageEvent) returns (next: map<string, Slice>)
    requires SlicesFit(m) && CountersFit(e)
    ensures next == m[KeyOn(a, e) := AddSlice(SliceAt(m, KeyOn(a, e)), e)]
  {
    var k := KeyOn(a, e);
    var s := EMPTY;
    if k in m {
      s := m[k];
    }
    next := m[k := AddSlice(s, e)];
  }
}
