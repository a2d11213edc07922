/** ApplyUsage and SyncBatch of internal/hosted/store.go when calls overlap: each
    transaction reads the rows as they were at its first read, its writes go by primary
    key alone, and the idempotency key is recorded in a statement of its own. */
module SyncOverlap {
  import opened SyncBatches
  import opened Wrappers

  /** A call in flight: its key was looked up and not found, its transaction is open and reads
      `view`, or it has committed and its key is not recorded yet. How far a call gets is said
      by the steps of a run. */
  datatype Flight = Checked(call: Call) | Open(call: Call, view: Table) | Committed(call: Call)

  datatype World = World(table: Table, seen: map<(int, string), seq<Row>>, flights: map<int, Flight>)

  datatype Step = Check(t: int, call: Call) | Begin(t: int) | Commit(t: int) | Record(t: int) | Die(t: int)

  /** What the transaction makes of the rows it reads. */
  function Outcome(f: Flight): Result
    requires f.Open?
  {
    ApplyRows(f.view, f.call.user, f.call.device, f.call.rows)
  }

  /** The entries it inserts and updates. */
  function Writes(f: Flight): Table
    requires f.Open? && Outcome(f).Ok?
  {
    var after := Outcome(f).table;
    map k | k in after && (k !in f.view || after[k] != f.view[k]) :: after[k]
  }

  /** An insert meets a row that came since: a duplicate key, and the transaction fails. */
  predicate Collides(w: World, f: Flight)
    requires f.Open? && Outcome(f).Ok?
  {
    exists k :: k in Writes(f) && k !in f.view && k in w.table
  }

  /** The step commits a transaction. */
  predicate Lands(w: World, s: Step) {
    && s.Commit? && s.t in w.flights && w.flights[s.t].Open?
    && Outcome(w.flights[s.t]).Ok? && !Collides(w, w.flights[s.t])
  }

  function Next(w: World, s: Step): World {
    match s
    case Check(t, c) =>
      if t in w.flights || (c.device, c.key) in w.seen then w else w.(flights := w.flights[t := Checked(c)])
    case Begin(t) =>
      if t !in w.flights || !w.flights[t].Checked? then w
      else w.(flights := w.flights[t := Open(w.flights[t].call, w.table)])
    case Commit(t) =>
      if Lands(w, s) then
        w.(table := w.table + Writes(w.flights[t]), flights := w.flights[t := Committed(w.flights[t].call)])
      else if t in w.flights && w.flights[t].Open? then w.(flights := w.flights - {t})
      else w
    case Record(t) =>
      if t !in w.flights || !w.flights[t].Committed? then w
      else
        var c := w.flights[t].call;
        w.(seen := if (c.device, c.key) in w.seen then w.seen else w.seen[(c.device, c.key) := c.rows],
           flights := w.flights - {t})
    case Die(t) => w.(flights := w.flights - {t})
  }

  const START := World(map[], map[], map[])

  function RunOf(steps: seq<Step>, n: nat): World
    requires n <= |steps|
  {
    if n == 0 then START else Next(RunOf(steps, n - 1), steps[n - 1])
  }

  // ---------- idempotency keys ----------

  /** A key on record stays with the rows it was recorded for, whatever overlaps, and no call under
      it is begun: its look-up leaves everything as it is. */
  lemma {:induction false} KeysStand(steps: seq<Step>, i: nat, j: nat, device: int, key: string)
    requires i <= j <= |steps| && (device, key) in RunOf(steps, i).seen
    ensures (device, key) in RunOf(steps, j).seen
    ensures RunOf(steps, j).seen[(device, key)] == RunOf(steps, i).seen[(device, key)]
    ensures forall t, c: Call :: c.device == device && c.key == key ==>
              Next(RunOf(steps, j), Check(t, c)) == RunOf(steps, j)
    decreases j
  {
    if i < j {
      KeysStand(steps, i, j - 1, device, key);
    }
  }

  // ---------- races ----------

  predicate Touches(c: Call, k: Key) {
    exists i :: 0 <= i < |c.rows| && KeyOf(c.user, c.device, c.rows[i]) == k
  }

  /** A row the call is about is no longer what its transaction reads. */
  predicate Outdated(w: World, f: Flight, k: Key)
    requires f.Open?
  {
    Touches(f.call, k) && Lookup(w.table, k) != Lookup(f.view, k)
  }

  ghost predicate Races(w: World, s: Step) {
    Lands(w, s) && exists k :: Outdated(w, w.flights[s.t], k)
  }

  ghost predicate RacesAt(steps: seq<Step>, n: nat)
    requires n < |steps|
  {
    Races(RunOf(steps, n), steps[n])
  }

  ghost predicate Unraced(steps: seq<Step>) {
    forall n :: 0 <= n < |steps| ==> !RacesAt(steps, n)
  }

  // ---------- a transaction that does not race is a call of its own ----------

  /** A row the rows are not about stays. */
  lemma UntouchedStays(f: Flight, k: Key)
    requires f.Open? && Outcome(f).Ok? && k in Writes(f)
    ensures Touches(f.call, k)
  {
    StoredHasOrigin(f.view, f.call.user, f.call.device, f.call.rows, k);
  }

  /** What the commit leaves is what the same rows make of the table by then. */
  lemma LandsLikeACall(w: World, s: Step)
    requires Lands(w, s) && !Races(w, s)
    ensures var c := w.flights[s.t].call; ApplyRows(w.table, c.user, c.device, c.rows) == Ok(Next(w, s).table)
  {
    var f := w.flights[s.t];
    var c := f.call;
    forall i | 0 <= i < |c.rows|
      ensures Lookup(w.table, KeyOf(c.user, c.device, c.rows[i])) == Lookup(f.view, KeyOf(c.user, c.device, c.rows[i]))
    {
      assert Touches(c, KeyOf(c.user, c.device, c.rows[i]));
      assert !Outdated(w, f, KeyOf(c.user, c.device, c.rows[i]));
    }
    var now := ApplyRows(w.table, c.user, c.device, c.rows);
    SameRowsSameOutcome(w.table, f.view, c.user, c.device, c.rows, ANY_KEY);
    forall k ensures now.Ok? && Lookup(now.table, k) == Lookup(Next(w, s).table, k) {
      SameRowsSameOutcome(w.table, f.view, c.user, c.device, c.rows, k);
      LandedEntry(w, s, k);
    }
    SameLookups(now.table, Next(w, s).table);
  }

  lemma LandedEntry(w: World, s: Step, k: Key)
    requires Lands(w, s) && !Races(w, s)
    ensures var f := w.flights[s.t];
            Lookup(Next(w, s).table, k) ==
            if Lookup(w.table, k) == Lookup(f.view, k) then Lookup(Outcome(f).table, k) else Lookup(w.table, k)
  {
    var f := w.flights[s.t];
    RowsRise(f.view, f.call.user, f.call.device, f.call.rows);
    if k in Writes(f) {
      UntouchedStays(f, k);
      assert !Outdated(w, f, k);
    }
  }

  // ---------- what unraced runs keep ----------

  lemma StepRises(w: World, s: Step)
    requires !Races(w, s)
    ensures Rises(w.table, Next(w, s).table)
  {
    if Lands(w, s) {
      var c := w.flights[s.t].call;
      LandsLikeACall(w, s);
      RowsRise(w.table, c.user, c.device, c.rows);
    }
  }

  /** Over every run of overlapping, dying and repeated calls without a race, a stored row is
      replaced only by one of a higher revision. */
  lemma {:induction false} RevisionsOnlyRise(steps: seq<Step>, i: nat, j: nat)
    requires Unraced(steps) && i <= j <= |steps|
    ensures Rises(RunOf(steps, i).table, RunOf(steps, j).table)
    decreases j
  {
    if i < j {
      RevisionsOnlyRise(steps, i, j - 1);
      assert !RacesAt(steps, j - 1);
      StepRises(RunOf(steps, j - 1), steps[j - 1]);
    }
  }

  /** All rows of committed transactions, in the order of their commits. */
  function Log(steps: seq<Step>, n: nat): seq<Posting>
    requires n <= |steps|
  {
    if n == 0 then []
    else
      var w, s := RunOf(steps, n - 1), steps[n - 1];
      Log(steps, n - 1)
      + if Lands(w, s) then Postings(w.flights[s.t].call.user, w.flights[s.t].call.device, w.flights[s.t].call.rows)
        else []
  }

  lemma {:induction false} TableIsBest(steps: seq<Step>, n: nat, k: Key)
    requires Unraced(steps) && n <= |steps|
    ensures Lookup(RunOf(steps, n).table, k) == Best(None, Log(steps, n), k)
  {
    if n > 0 {
      var w, s := RunOf(steps, n - 1), steps[n - 1];
      TableIsBest(steps, n - 1, k);
      assert !RacesAt(steps, n - 1);
      if Lands(w, s) {
        var c := w.flights[s.t].call;
        LandsLikeACall(w, s);
        RowsKeepBest(w.table, c.user, c.device, c.rows, k);
        BestConcat(None, Log(steps, n - 1), Postings(c.user, c.device, c.rows), k);
      } else {
        assert Log(steps, n) == Log(steps, n - 1);
      }
    }
  }

  /** Over every such run the stored counters of a key are those of the first accepted row, in
      the order of the commits, at its highest accepted revision. */
  lemma StoredIsFirstHighest(steps: seq<Step>, n: nat, k: Key)
    requires Unraced(steps) && n <= |steps|
    ensures var log, i := Log(steps, n), Winner(Log(steps, n), k);
            && Lookup(RunOf(steps, n).table, k) == (if i < 0 then None else Some(log[i].entry))
            && FirstHighest(log, k, i)
  {
    TableIsBest(steps, n, k);
    WinnerIsFirstHighest(Log(steps, n), k);
  }

  // ---------- calls that do not overlap ----------

  /** No transaction begins while another one is open. */
  ghost predicate OneByOne(steps: seq<Step>) {
    forall n :: 0 <= n < |steps| ==> BeginsAlone(steps, n)
  }

  ghost predicate BeginsAlone(steps: seq<Step>, n: nat)
    requires n < |steps|
  {
    steps[n].Begin? ==> NoneOpen(RunOf(steps, n))
  }

  ghost predicate NoneOpen(w: World) {
    forall t :: t in w.flights ==> !w.flights[t].Open?
  }

  /** At most one transaction is open, and it reads the table as it is. */
  ghost predicate OneOpen(w: World) {
    forall t :: t in w.flights && w.flights[t].Open? ==>
      w.flights[t].view == w.table && forall u :: u in w.flights && w.flights[u].Open? ==> u == t
  }

  lemma {:induction false} OneStaysOpen(steps: seq<Step>, n: nat)
    requires OneByOne(steps) && n <= |steps|
    ensures OneOpen(RunOf(steps, n))
  {
    if n > 0 {
      OneStaysOpen(steps, n - 1);
      assert BeginsAlone(steps, n - 1);
      NextOneOpen(RunOf(steps, n - 1), steps[n - 1]);
    }
  }

  lemma NextOneOpen(w: World, s: Step)
    requires OneOpen(w) && (s.Begin? ==> NoneOpen(w))
    ensures OneOpen(Next(w, s))
  {
  }

  lemma OneByOneIsUnraced(steps: seq<Step>)
    requires OneByOne(steps)
    ensures Unraced(steps)
  {
    forall n | 0 <= n < |steps| ensures !RacesAt(steps, n) {
      OneStaysOpen(steps, n);
    }
  }

  // ---------- exactly when a revision goes down ----------

  predicate Lowers(t: Table, u: Table, k: Key) {
    k in t && (k !in u || u[k].revision < t[k].revision)
  }

  /** In any run at all, a step lowers the revision of a key exactly when it commits a write of
      it that is below the row stored by then; the transaction then read another row. */
  lemma RevisionDropsIff(w: World, s: Step, k: Key)
    ensures Lowers(w.table, Next(w, s).table, k) <==>
            Lands(w, s) && k in Writes(w.flights[s.t]) && k in w.table
            && Writes(w.flights[s.t])[k].revision < w.table[k].revision
    ensures Lowers(w.table, Next(w, s).table, k) ==> Outdated(w, w.flights[s.t], k)
  {
    if Lands(w, s) && k in Writes(w.flights[s.t]) && k in w.table {
      var f := w.flights[s.t];
      UntouchedStays(f, k);
      RowsRise(f.view, f.call.user, f.call.device, f.call.rows);
    }
  }

  /** A call of one account-wide row. */
  function OneRow(name: Name, usage: Usage, user: int, device: int, revision: int): Call {
    Call(user, device, "key", [Row(ACCOUNT_GLOBAL, name, usage, revision)], Completes)
  }

  function LostRun(name: Name, usage: Usage, user: int): seq<Step> {
    [Check(0, OneRow(name, usage, user, 1, 1)), Begin(0), Commit(0), Check(1, OneRow(name, usage, user, 2, 3)),
     Check(2, OneRow(name, usage, user, 3, 2)), Begin(1), Begin(2), Commit(1), Commit(2)]
  }

  /** Revision 1 is stored; two devices send 3 and 2 and both read before either writes: the
      row ends at revision 2 after it was at 3. */
  lemma LostUpdateLowers(name: Name, usage: Usage, user: int)
    ensures var steps, k := LostRun(name, usage, user), Key(user, ACCOUNT_GLOBAL, 0, name);
            && k in RunOf(steps, 8).table && RunOf(steps, 8).table[k].revision == 3
            && k in RunOf(steps, 9).table && RunOf(steps, 9).table[k].revision == 2
  {
    var steps, k := LostRun(name, usage, user), Key(user, ACCOUNT_GLOBAL, 0, name);
    var one: Table := map[k := Entry(usage, 1, 1)];
    var w := BothRead(name, usage, user);
    OneRowApplies(one, name, usage, user, 2, 3);
    OneRowApplies(one, name, usage, user, 3, 2);
    LostPrefix(name, usage, user);
    var x := Next(w, Commit(1));
    assert Writes(w.flights[1]) == map[k := Entry(usage, 3, 2)];
    assert x.flights[2] == w.flights[2];
    assert RunOf(steps, 8) == x;
    assert Writes(x.flights[2]) == map[k := Entry(usage, 2, 3)];
    assert RunOf(steps, 9) == Next(x, Commit(2));
  }

  lemma OneRowApplies(t: Table, name: Name, usage: Usage, user: int, device: int, revision: int)
    requires var k := Key(user, ACCOUNT_GLOBAL, 0, name); k in t ==> t[k].revision < revision
    ensures var c, k := OneRow(name, usage, user, device, revision), Key(user, ACCOUNT_GLOBAL, 0, name);
            ApplyRows(t, user, device, c.rows) == Ok(t[k := Entry(usage, revision, device)])
  {
    var rows := OneRow(name, usage, user, device, revision).rows;
    assert rows[..0] == [];
  }

  /** Revision 1 is stored, and both transactions have read it. */
  function BothRead(name: Name, usage: Usage, user: int): World {
    var one: Table := map[Key(user, ACCOUNT_GLOBAL, 0, name) := Entry(usage, 1, 1)];
    World(one, map[], map[0 := Committed(OneRow(name, usage, user, 1, 1)),
                          1 := Open(OneRow(name, usage, user, 2, 3), one),
                          2 := Open(OneRow(name, usage, user, 3, 2), one)])
  }

  lemma LostPrefix(name: Name, usage: Usage, user: int)
    ensures RunOf(LostRun(name, usage, user), 7) == BothRead(name, usage, user)
  {
    var steps := LostRun(name, usage, user);
    var a, b, c := OneRow(name, usage, user, 1, 1), OneRow(name, usage, user, 2, 3), OneRow(name, usage, user, 3, 2);
    FirstStored(name, usage, user);
    hide Next;
    hide OneRow;
    assert RunOf(steps, 4) == Next(RunOf(steps, 3), Check(1, b));
    assert RunOf(steps, 5) == Next(RunOf(steps, 4), Check(2, c));
    assert RunOf(steps, 6) == Next(RunOf(steps, 5), Begin(1));
    assert RunOf(steps, 7) == Next(RunOf(steps, 6), Begin(2));
    BothBegin(map[Key(user, ACCOUNT_GLOBAL, 0, name) := Entry(usage, 1, 1)], a, b, c);
  }

  lemma BothBegin(one: Table, a: Call, b: Call, c: Call)
    ensures var w := Next(Next(World(one, map[], map[0 := Committed(a)]), Check(1, b)), Check(2, c));
            Next(Next(w, Begin(1)), Begin(2))
            == World(one, map[], map[0 := Committed(a), 1 := Open(b, one), 2 := Open(c, one)])
  {
    hide Lands;
    hide Writes;
    var w := World(one, map[], map[0 := Committed(a), 1 := Checked(b)]);
    assert Next(World(one, map[], map[0 := Committed(a)]), Check(1, b)) == w;
    assert Next(w, Check(2, c)) == w.(flights := map[0 := Committed(a), 1 := Checked(b), 2 := Checked(c)]);
  }

  lemma FirstStored(name: Name, usage: Usage, user: int)
    ensures RunOf(LostRun(name, usage, user), 3)
            == World(map[Key(user, ACCOUNT_GLOBAL, 0, name) := Entry(usage, 1, 1)], map[],
                     map[0 := Committed(OneRow(name, usage, user, 1, 1))])
  {
    var steps, a := LostRun(name, usage, user), OneRow(name, usage, user, 1, 1);
    OneRowApplies(map[], name, usage, user, 1, 1);
    assert RunOf(steps, 0) == START;
    assert RunOf(steps, 1) == START.(flights := map[0 := Checked(a)]);
    assert RunOf(steps, 2) == START.(flights := map[0 := Open(a, map[])]);
    assert Writes(Open(a, map[])) == map[Key(user, ACCOUNT_GLOBAL, 0, name) := Entry(usage, 1, 1)];
  }
}
