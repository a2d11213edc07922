/** Model of ApplyUsage and SyncBatch in internal/hosted/store.go: revisioned daily rows,
    one transaction per batch, and idempotency keys recorded after the commit. */
module SyncBatches {
  import opened Wrappers

  /** The two scopes a decoded batch can have. */
  const DEVICE_LOCAL := "device_local"
  const ACCOUNT_GLOBAL := "account_global"

  datatype Name = Name(tool: string, source: string, date: string, vendor: string, model: string)

  datatype Usage = Usage(miss: int, cacheRead: int, cacheCreate: int, output: int, requests: int, userTurns: int,
                         quality: string, derivation: string)

  /** One row of a batch. */
  datatype Row = Row(scope: string, name: Name, usage: Usage, revision: int)

  /** The primary key of usage_daily_model. */
  datatype Key = Key(user: int, scope: string, device: int, name: Name)

  datatype Entry = Entry(usage: Usage, revision: int, writer: int)

  type Table = map<Key, Entry>

  datatype Error = Stale | Clash | Reused | Lost

  datatype Result = Ok(table: Table) | Err(error: Error)

  /** An account's rows belong to no device. */
  function KeyOf(user: int, device: int, row: Row): Key {
    Key(user, row.scope, if row.scope == ACCOUNT_GLOBAL then 0 else device, row.name)
  }

  function EntryOf(device: int, row: Row): Entry {
    Entry(row.usage, row.revision, device)
  }

  /** One row inside the transaction. */
  function ApplyRow(t: Table, user: int, device: int, row: Row): Result {
    var k := KeyOf(user, device, row);
    if k !in t then Ok(t[k := EntryOf(device, row)])
    else if row.revision < t[k].revision then Err(Stale)
    else if row.revision == t[k].revision then if row.usage.miss != t[k].usage.miss then Err(Clash) else Ok(t)
    else Ok(t[k := EntryOf(device, row)])
  }

  /** The rows in order; the first error is the batch's. */
  function ApplyRows(t: Table, user: int, device: int, rows: seq<Row>): Result {
    if rows == [] then Ok(t)
    else
      var before := ApplyRows(t, user, device, rows[..|rows| - 1]);
      if before.Err? then before else ApplyRow(before.table, user, device, rows[|rows| - 1])
  }

  // ---------- calls ----------

  /** How far a call gets: it may die before its commit, or between the commit and the
      record of its idempotency key. */
  datatype Fate = Completes | DiesBeforeCommit | DiesBeforeRecord

  datatype Call = Call(user: int, device: int, key: string, rows: seq<Row>, fate: Fate)

  /** The hash of a body stands for the body. */
  datatype State = State(table: Table, seen: map<(int, string), seq<Row>>)

  predicate Known(s: State, c: Call) {
    (c.device, c.key) in s.seen
  }

  /** The call commits its rows. */
  predicate Commits(s: State, c: Call) {
    !Known(s, c) && c.fate != DiesBeforeCommit && ApplyRows(s.table, c.user, c.device, c.rows).Ok?
  }

  /** SyncBatch. */
  function Sync(s: State, c: Call): State {
    if !Commits(s, c) then s
    else State(ApplyRows(s.table, c.user, c.device, c.rows).table,
               if c.fate == Completes then s.seen[(c.device, c.key) := c.rows] else s.seen)
  }

  function Answer(s: State, c: Call): Option<Error> {
    if Known(s, c) then if s.seen[(c.device, c.key)] != c.rows then Some(Reused) else None
    else
      var r := ApplyRows(s.table, c.user, c.device, c.rows);
      if r.Err? then Some(r.error) else if c.fate != Completes then Some(Lost) else None
  }

  const EMPTY := State(map[], map[])

  function Run(calls: seq<Call>, n: nat): State
    requires n <= |calls|
  {
    if n == 0 then EMPTY else Sync(Run(calls, n - 1), calls[n - 1])
  }

  /** A key that is on record answers for itself: the same rows again are fine, other rows are
      refused, and nothing is applied. A call that is cut off has no answer. */
  lemma KnownKeyAnswers(s: State, c: Call)
    ensures (c.device, c.key) in s.seen ==>
              Sync(s, c) == s && Answer(s, c) == if s.seen[(c.device, c.key)] == c.rows then None else Some(Reused)
    ensures (c.device, c.key) !in s.seen && Answer(s, c).None? ==>
              c.fate == Completes && Sync(s, c).seen == s.seen[(c.device, c.key) := c.rows]
    ensures (c.device, c.key) !in s.seen && c.fate != Completes ==>
              Answer(s, c).Some? && Sync(s, c).seen == s.seen && (c.fate == DiesBeforeCommit ==> Sync(s, c) == s)
  {
  }

  // ---------- a key only moves up ----------

  /** A stored row stays, and is replaced only by one of a higher revision. */
  ghost predicate Rises(t: Table, u: Table) {
    forall k :: k in t ==> k in u && (u[k] == t[k] || u[k].revision > t[k].revision)
  }

  lemma {:induction false} RowsRise(t: Table, user: int, device: int, rows: seq<Row>)
    ensures var r := ApplyRows(t, user, device, rows); r.Ok? ==> Rises(t, r.table)
  {
    if rows != [] {
      RowsRise(t, user, device, rows[..|rows| - 1]);
    }
  }

  /** Whatever is sent, retried, refused or lost, one call after another, a key's revision
      never decreases. */
  lemma {:induction false} RevisionsOnlyRise(calls: seq<Call>, i: nat, j: nat)
    requires i <= j <= |calls|
    ensures Rises(Run(calls, i).table, Run(calls, j).table)
    decreases j
  {
    if i < j {
      RevisionsOnlyRise(calls, i, j - 1);
      var c := calls[j - 1];
      RowsRise(Run(calls, j - 1).table, c.user, c.device, c.rows);
    }
  }

  /** A call that is answered with an error other than a lost reply changed nothing. */
  lemma RejectedChangesNothing(s: State, c: Call)
    requires Answer(s, c).Some? && Answer(s, c) != Some(Lost)
    ensures Sync(s, c) == s
  {
  }

  // ---------- what is stored is the first row of the highest revision ----------

  /** One accepted row. */
  datatype Posting = Posting(key: Key, entry: Entry)

  function Postings(user: int, device: int, rows: seq<Row>): seq<Posting> {
    if rows == [] then []
    else
      var row := rows[|rows| - 1];
      Postings(user, device, rows[..|rows| - 1]) + [Posting(KeyOf(user, device, row), EntryOf(device, row))]
  }

  /** All rows of committed batches, in order. */
  function Log(calls: seq<Call>, n: nat): seq<Posting>
    requires n <= |calls|
  {
    if n == 0 then []
    else
      var c := calls[n - 1];
      Log(calls, n - 1) + if Commits(Run(calls, n - 1), c) then Postings(c.user, c.device, c.rows) else []
  }

  function Lookup(t: Table, k: Key): Option<Entry> {
    if k in t then Some(t[k]) else None
  }

  /** The first row of the highest revision, beginning with b. */
  function Best(b: Option<Entry>, log: seq<Posting>, k: Key): Option<Entry> {
    if log == [] then b
    else
      var before, p := Best(b, log[..|log| - 1], k), log[|log| - 1];
      if p.key == k && (before.None? || p.entry.revision > before.value.revision) then Some(p.entry) else before
  }

  lemma {:induction false} BestConcat(b: Option<Entry>, x: seq<Posting>, y: seq<Posting>, k: Key)
    ensures Best(b, x + y, k) == Best(Best(b, x, k), y, k)
    decreases |y|
  {
    if y == [] {
      assert x + y == x;
    } else {
      assert (x + y)[..|x + y| - 1] == x + y[..|y| - 1];
      BestConcat(b, x, y[..|y| - 1], k);
    }
  }

  lemma {:induction false} RowsKeepBest(t: Table, user: int, device: int, rows: seq<Row>, k: Key)
    ensures var r := ApplyRows(t, user, device, rows);
            r.Ok? ==> Lookup(r.table, k) == Best(Lookup(t, k), Postings(user, device, rows), k)
  {
    if rows != [] {
      RowsKeepBest(t, user, device, rows[..|rows| - 1], k);
    }
  }

  lemma {:induction false} TableIsBest(calls: seq<Call>, n: nat, k: Key)
    requires n <= |calls|
    ensures Lookup(Run(calls, n).table, k) == Best(None, Log(calls, n), k)
  {
    if n > 0 {
      var s, c := Run(calls, n - 1), calls[n - 1];
      TableIsBest(calls, n - 1, k);
      if Commits(s, c) {
        RowsKeepBest(s.table, c.user, c.device, c.rows, k);
        BestConcat(None, Log(calls, n - 1), Postings(c.user, c.device, c.rows), k);
      } else {
        assert Log(calls, n) == Log(calls, n - 1);
      }
    }
  }

  // ---------- whose rows a batch can touch ----------

  /** An account's rows are shared by its devices; any other row belongs to the device that sent it. */
  predicate OwnEntry(k: Key, user: int, device: int) {
    k.user == user && (if k.scope == ACCOUNT_GLOBAL then k.device == 0 else k.device == device)
  }

  /** An accepted batch changes entries of its user only, and none of another device; what it
      puts there is one of its rows, under the row's own scope and name. */
  lemma {:induction false} ChangesOwnOnly(t: Table, user: int, device: int, rows: seq<Row>, k: Key)
    requires ApplyRows(t, user, device, rows).Ok?
    ensures var u := ApplyRows(t, user, device, rows).table;
            Lookup(u, k) != Lookup(t, k) ==>
              && OwnEntry(k, user, device) && k in u
              && exists i :: 0 <= i < |rows| && rows[i].scope == k.scope && rows[i].name == k.name
                   && u[k] == Entry(rows[i].usage, rows[i].revision, device)
  {
    if rows != [] {
      var init, last := rows[..|rows| - 1], rows[|rows| - 1];
      ChangesOwnOnly(t, user, device, init, k);
      var v, u := ApplyRows(t, user, device, init).table, ApplyRows(t, user, device, rows).table;
      if Lookup(u, k) != Lookup(t, k) {
        if Lookup(u, k) != Lookup(v, k) {
          assert rows[|rows| - 1] == last;
        } else {
          var i :| 0 <= i < |init| && init[i].scope == k.scope && init[i].name == k.name
                   && v[k] == Entry(init[i].usage, init[i].revision, device);
          assert rows[i] == init[i];
        }
      }
    }
  }

  /** After an accepted batch each of its rows is there, at its revision or a higher one: a
      device's row under the device, an account's under none. */
  lemma RowsArePresent(t: Table, user: int, device: int, rows: seq<Row>, i: nat)
    requires ApplyRows(t, user, device, rows).Ok? && i < |rows|
    ensures var u, row := ApplyRows(t, user, device, rows).table, rows[i];
            && (row.scope == DEVICE_LOCAL ==>
                  var k := Key(user, DEVICE_LOCAL, device, row.name); k in u && row.revision <= u[k].revision)
            && (row.scope == ACCOUNT_GLOBAL ==>
                  var k := Key(user, ACCOUNT_GLOBAL, 0, row.name); k in u && row.revision <= u[k].revision)
  {
    AcceptedSettles(t, user, device, rows, i);
  }

  /** Where a row belongs. */
  predicate IsFor(k: Key, user: int, device: int, row: Row) {
    OwnEntry(k, user, device) && k.scope == row.scope && k.name == row.name
  }

  /** A row is welcome where nothing is stored, or something of a lower revision, or of the same
      with the same miss count. */
  ghost predicate Welcome(t: Table, user: int, device: int, row: Row) {
    forall k :: k in t && IsFor(k, user, device, row) ==>
      t[k].revision < row.revision || (t[k].revision == row.revision && t[k].usage.miss == row.usage.miss)
  }

  ghost predicate AllWelcome(t: Table, user: int, device: int, rows: seq<Row>) {
    forall i :: 0 <= i < |rows| ==> Welcome(t, user, device, rows[i])
  }

  /** A batch without repeated names is accepted exactly when each of its rows is welcome. */
  lemma {:induction false} AcceptedIff(t: Table, user: int, device: int, rows: seq<Row>)
    requires forall i, j :: 0 <= i < j < |rows| ==> rows[i].scope != rows[j].scope || rows[i].name != rows[j].name
    ensures ApplyRows(t, user, device, rows).Ok? <==> AllWelcome(t, user, device, rows)
  {
    if rows != [] {
      var init, last := rows[..|rows| - 1], rows[|rows| - 1];
      AcceptedIff(t, user, device, init);
      assert rows == init + [last];
      assert AllWelcome(t, user, device, rows) <==>
             AllWelcome(t, user, device, init) && Welcome(t, user, device, last);
      if ApplyRows(t, user, device, init).Ok? {
        LastIsWelcomeIff(t, user, device, init, last);
      }
    }
  }

  /** An unwelcome row is stale below the stored revision, and a clash at it. */
  lemma UnwelcomeIs(t: Table, user: int, device: int, row: Row, k: Key)
    requires k in t && IsFor(k, user, device, row)
    ensures row.revision < t[k].revision ==> ApplyRow(t, user, device, row) == Err(Stale)
    ensures row.revision == t[k].revision && row.usage.miss != t[k].usage.miss ==>
              ApplyRow(t, user, device, row) == Err(Clash)
    ensures row.revision == t[k].revision && row.usage.miss == t[k].usage.miss ==>
              ApplyRow(t, user, device, row) == Ok(t)
    ensures row.revision > t[k].revision ==>
              ApplyRow(t, user, device, row) == Ok(t[k := Entry(row.usage, row.revision, device)])
  {
  }

  lemma LastIsWelcomeIff(t: Table, user: int, device: int, init: seq<Row>, last: Row)
    requires ApplyRows(t, user, device, init).Ok?
    requires forall i :: 0 <= i < |init| ==> init[i].scope != last.scope || init[i].name != last.name
    ensures ApplyRow(ApplyRows(t, user, device, init).table, user, device, last).Ok? <==> Welcome(t, user, device, last)
  {
    var k := KeyOf(user, device, last);
    assert forall l :: IsFor(l, user, device, last) <==> l == k;
    ChangesOwnOnly(t, user, device, init, k);
    assert Lookup(ApplyRows(t, user, device, init).table, k) == Lookup(t, k);
  }

  const ANY_KEY := Key(0, "", 0, Name("", "", "", "", ""))

  /** The tables agree on the rows of a batch. */
  ghost predicate AgreeOn(t: Table, u: Table, user: int, device: int, rows: seq<Row>) {
    forall i :: 0 <= i < |rows| ==> Lookup(t, KeyOf(user, device, rows[i])) == Lookup(u, KeyOf(user, device, rows[i]))
  }

  /** Then it is accepted by both or by none, and leaves the same behind. */
  lemma {:induction false} SameRowsSameOutcome(t: Table, u: Table, user: int, device: int, rows: seq<Row>, k: Key)
    requires AgreeOn(t, u, user, device, rows)
    ensures var x, y := ApplyRows(t, user, device, rows), ApplyRows(u, user, device, rows);
            && (x.Ok? <==> y.Ok?)
            && (x.Ok? ==>
                  Lookup(x.table, k) == if Lookup(t, k) == Lookup(u, k) then Lookup(y.table, k) else Lookup(t, k))
  {
    if rows != [] {
      var init, last := rows[..|rows| - 1], rows[|rows| - 1];
      assert AgreeOn(t, u, user, device, init) by {
        forall i | 0 <= i < |init|
          ensures Lookup(t, KeyOf(user, device, init[i])) == Lookup(u, KeyOf(user, device, init[i]))
        {
          assert init[i] == rows[i];
        }
      }
      SameRowsSameOutcome(t, u, user, device, init, k);
      SameRowsSameOutcome(t, u, user, device, init, KeyOf(user, device, last));
      assert Lookup(t, KeyOf(user, device, last)) == Lookup(u, KeyOf(user, device, last));
    }
  }

  /** The rows are the device's own. */
  predicate LocalOnly(rows: seq<Row>) {
    forall i :: 0 <= i < |rows| ==> rows[i].scope == DEVICE_LOCAL
  }

  /** What one batch did is out of the other's sight. */
  lemma OtherSeesNothing(t: Table, userA: int, a: int, rowsA: seq<Row>, userB: int, b: int, rowsB: seq<Row>)
    requires userA != userB || (a != b && LocalOnly(rowsB))
    requires ApplyRows(t, userA, a, rowsA).Ok?
    ensures AgreeOn(ApplyRows(t, userA, a, rowsA).table, t, userB, b, rowsB)
  {
    forall i | 0 <= i < |rowsB|
      ensures var k := KeyOf(userB, b, rowsB[i]); Lookup(ApplyRows(t, userA, a, rowsA).table, k) == Lookup(t, k)
    {
      ChangesOwnOnly(t, userA, a, rowsA, KeyOf(userB, b, rowsB[i]));
    }
  }

  /** Batches of different users, and device-local batches of different devices, do not meet:
      neither is refused because of the other, and their order does not matter. */
  lemma StrangersCommute(t: Table, userA: int, a: int, rowsA: seq<Row>, userB: int, b: int, rowsB: seq<Row>)
    requires userA != userB || (a != b && LocalOnly(rowsA) && LocalOnly(rowsB))
    requires ApplyRows(t, userA, a, rowsA).Ok?
    ensures ApplyRows(ApplyRows(t, userA, a, rowsA).table, userB, b, rowsB).Ok? <==> ApplyRows(t, userB, b, rowsB).Ok?
    ensures ApplyRows(t, userB, b, rowsB).Ok? ==>
              var x, y := ApplyRows(t, userA, a, rowsA).table, ApplyRows(t, userB, b, rowsB).table;
              && ApplyRows(x, userB, b, rowsB).Ok? && ApplyRows(y, userA, a, rowsA).Ok?
              && ApplyRows(x, userB, b, rowsB).table == ApplyRows(y, userA, a, rowsA).table
  {
    var x := ApplyRows(t, userA, a, rowsA).table;
    OtherSeesNothing(t, userA, a, rowsA, userB, b, rowsB);
    SameRowsSameOutcome(x, t, userB, b, rowsB, ANY_KEY);
    if ApplyRows(t, userB, b, rowsB).Ok? {
      var y := ApplyRows(t, userB, b, rowsB).table;
      OtherSeesNothing(t, userB, b, rowsB, userA, a, rowsA);
      SameRowsSameOutcome(y, t, userA, a, rowsA, ANY_KEY);
      forall k
        ensures Lookup(ApplyRows(x, userB, b, rowsB).table, k) == Lookup(ApplyRows(y, userA, a, rowsA).table, k)
      {
        SameRowsSameOutcome(x, t, userB, b, rowsB, k);
        SameRowsSameOutcome(y, t, userA, a, rowsA, k);
        OneOwner(t, userA, a, rowsA, userB, b, rowsB, k);
      }
      SameLookups(ApplyRows(x, userB, b, rowsB).table, ApplyRows(y, userA, a, rowsA).table);
    }
  }

  /** No entry is changed by both. */
  lemma OneOwner(t: Table, userA: int, a: int, rowsA: seq<Row>, userB: int, b: int, rowsB: seq<Row>, k: Key)
    requires userA != userB || (a != b && LocalOnly(rowsA) && LocalOnly(rowsB))
    requires ApplyRows(t, userA, a, rowsA).Ok? && ApplyRows(t, userB, b, rowsB).Ok?
    ensures Lookup(ApplyRows(t, userA, a, rowsA).table, k) == Lookup(t, k)
            || Lookup(ApplyRows(t, userB, b, rowsB).table, k) == Lookup(t, k)
  {
    ChangesOwnOnly(t, userA, a, rowsA, k);
    ChangesOwnOnly(t, userB, b, rowsB, k);
  }

  lemma SameLookups(t: Table, u: Table)
    requires forall k :: Lookup(t, k) == Lookup(u, k)
    ensures t == u
  {
    forall k ensures k in t <==> k in u {
      assert Lookup(t, k) == Lookup(u, k);
    }
    forall k | k in t ensures t[k] == u[k] {
      assert Lookup(t, k) == Lookup(u, k);
    }
  }

  /** Account-wide rows of one name, sent by two devices one after the other, meet in one entry,
      at the higher of the revisions or above. */
  lemma AccountRowsMeet(t: Table, user: int, a: int, rowsA: seq<Row>, i: nat, b: int, rowsB: seq<Row>, j: nat)
    requires ApplyRows(t, user, a, rowsA).Ok?
    requires ApplyRows(ApplyRows(t, user, a, rowsA).table, user, b, rowsB).Ok?
    requires i < |rowsA| && j < |rowsB| && rowsA[i].scope == rowsB[j].scope == ACCOUNT_GLOBAL
    requires rowsA[i].name == rowsB[j].name
    ensures var u := ApplyRows(ApplyRows(t, user, a, rowsA).table, user, b, rowsB).table;
            && (var k := Key(user, ACCOUNT_GLOBAL, 0, rowsA[i].name);
                k in u && rowsA[i].revision <= u[k].revision && rowsB[j].revision <= u[k].revision)
            && forall k :: k in u && k.user == user && k.scope == ACCOUNT_GLOBAL && k.device != 0 ==> k in t
  {
    var x := ApplyRows(t, user, a, rowsA).table;
    RowsArePresent(t, user, a, rowsA, i);
    RowsArePresent(x, user, b, rowsB, j);
    RowsRise(x, user, b, rowsB);
    forall k: Key | k.user == user && k.scope == ACCOUNT_GLOBAL && k.device != 0
      ensures Lookup(ApplyRows(x, user, b, rowsB).table, k) == Lookup(t, k)
    {
      ChangesOwnOnly(t, user, a, rowsA, k);
      ChangesOwnOnly(x, user, b, rowsB, k);
    }
  }

  /** The index of the row that stands for a key, or -1. */
  function Winner(log: seq<Posting>, k: Key): (i: int)
    ensures -1 <= i < |log|
  {
    if log == [] then -1
    else
      var w, p := Winner(log[..|log| - 1], k), log[|log| - 1];
      if p.key == k && (w < 0 || p.entry.revision > log[w].entry.revision) then |log| - 1 else w
  }

  /** No row of the key is of a higher revision than the one at i, and none of the same comes
      before it; without a row there is no i. */
  ghost predicate FirstHighest(log: seq<Posting>, k: Key, i: int)
    requires -1 <= i < |log|
  {
    forall j :: 0 <= j < |log| && log[j].key == k ==>
      && i >= 0 && log[i].key == k && log[j].entry.revision <= log[i].entry.revision
      && (log[j].entry.revision == log[i].entry.revision ==> i <= j)
  }

  /** The winner is the first row of its key at the highest revision there is. */
  lemma {:induction false} WinnerIsFirstHighest(log: seq<Posting>, k: Key)
    ensures var i := Winner(log, k);
            && Best(None, log, k) == (if i < 0 then None else Some(log[i].entry))
            && (i >= 0 ==> log[i].key == k)
            && FirstHighest(log, k, i)
  {
    if log != [] {
      var init := log[..|log| - 1];
      WinnerIsFirstHighest(init, k);
      forall j | 0 <= j < |init| ensures log[j] == init[j] {
      }
    }
  }

  /** Over every history of calls one after another the stored counters of a key are those
      of the first accepted row at its highest accepted revision, and a key nobody sent is not there. */
  lemma StoredIsFirstHighest(calls: seq<Call>, n: nat, k: Key)
    requires n <= |calls|
    ensures var log, i := Log(calls, n), Winner(Log(calls, n), k);
            && Lookup(Run(calls, n).table, k) == (if i < 0 then None else Some(log[i].entry))
            && FirstHighest(log, k, i)
  {
    TableIsBest(calls, n, k);
    WinnerIsFirstHighest(Log(calls, n), k);
  }

  // ---------- retrying a batch ----------

  /** An accepted row is not below what it met, and what is stored in the end is at its
      revision only with its miss count. */
  ghost predicate Settles(t: Table, u: Table, k: Key, row: Row) {
    && k in u && row.revision <= u[k].revision && (row.revision == u[k].revision ==> row.usage.miss == u[k].usage.miss)
    && (k in t ==> t[k].revision <= row.revision)
  }

  lemma {:induction false} AcceptedSettles(t: Table, user: int, device: int, rows: seq<Row>, i: nat)
    requires i < |rows| && ApplyRows(t, user, device, rows).Ok?
    ensures Settles(t, ApplyRows(t, user, device, rows).table, KeyOf(user, device, rows[i]), rows[i])
  {
    var init := rows[..|rows| - 1];
    RowsRise(t, user, device, init);
    if i < |init| {
      assert init[i] == rows[i];
      AcceptedSettles(t, user, device, init, i);
    }
  }

  /** What is stored was there before or is one of the rows. */
  lemma {:induction false} StoredHasOrigin(t: Table, user: int, device: int, rows: seq<Row>, k: Key)
    requires ApplyRows(t, user, device, rows).Ok? && k in ApplyRows(t, user, device, rows).table
    ensures var u := ApplyRows(t, user, device, rows).table;
            || (k in t && u[k] == t[k])
            || exists i :: 0 <= i < |rows| && KeyOf(user, device, rows[i]) == k && u[k].revision == rows[i].revision
  {
    if rows != [] {
      var init := rows[..|rows| - 1];
      var v, u := ApplyRows(t, user, device, init).table, ApplyRows(t, user, device, rows).table;
      if k in v && u[k] == v[k] {
        StoredHasOrigin(t, user, device, init, k);
        if !(k in t && u[k] == t[k]) {
          var i :| 0 <= i < |init| && KeyOf(user, device, init[i]) == k && u[k].revision == init[i].revision;
          assert rows[i] == init[i];
        }
      }
    }
  }

  /** No key comes twice with different revisions. */
  predicate OneRevisionPerKey(user: int, device: int, rows: seq<Row>) {
    forall i, j :: 0 <= i < |rows| && 0 <= j < |rows| && rows[i].revision != rows[j].revision ==>
      KeyOf(user, device, rows[i]) != KeyOf(user, device, rows[j])
  }

  /** Every row is at the stored revision of its key. */
  ghost predicate AtStored(u: Table, user: int, device: int, rows: seq<Row>) {
    forall i :: 0 <= i < |rows| ==>
      KeyOf(user, device, rows[i]) in u && rows[i].revision == u[KeyOf(user, device, rows[i])].revision
  }

  lemma AcceptedAtStored(t: Table, user: int, device: int, rows: seq<Row>)
    requires ApplyRows(t, user, device, rows).Ok?
    ensures AtStored(ApplyRows(t, user, device, rows).table, user, device, rows)
            <==> OneRevisionPerKey(user, device, rows)
  {
    var u := ApplyRows(t, user, device, rows).table;
    if OneRevisionPerKey(user, device, rows) {
      forall i | 0 <= i < |rows|
        ensures KeyOf(user, device, rows[i]) in u && rows[i].revision == u[KeyOf(user, device, rows[i])].revision
      {
        AcceptedSettles(t, user, device, rows, i);
        StoredHasOrigin(t, user, device, rows, KeyOf(user, device, rows[i]));
      }
    }
  }

  /** Rows that a table has settled either are at its revisions, and change nothing, or the
      first one below is stale. */
  lemma {:induction false} SettledAgain(u: Table, user: int, device: int, rows: seq<Row>)
    requires forall i {:trigger rows[i]} :: 0 <= i < |rows| ==> Settles(map[], u, KeyOf(user, device, rows[i]), rows[i])
    ensures ApplyRows(u, user, device, rows) == if AtStored(u, user, device, rows) then Ok(u) else Err(Stale)
  {
    if rows != [] {
      var init, last := rows[..|rows| - 1], rows[|rows| - 1];
      forall i {:trigger init[i]} | 0 <= i < |init| ensures Settles(map[], u, KeyOf(user, device, init[i]), init[i]) {
        assert init[i] == rows[i];
      }
      SettledAgain(u, user, device, init);
      assert rows == init + [last];
      assert AtStored(u, user, device, rows)
             <==> AtStored(u, user, device, init) && last.revision == u[KeyOf(user, device, last)].revision;
    }
  }

  /** A batch that was committed but not recorded can be sent again, with no other batch in
      between, and then changes nothing, exactly when no key comes in it with two
      revisions; otherwise the retry is refused as stale. */
  lemma RetryIsNeutralIff(s: State, c: Call, retry: Call)
    requires Commits(s, c) && c.fate == DiesBeforeRecord && retry == c.(fate := Completes)
    ensures Sync(Sync(s, c), retry).table == Sync(s, c).table
    ensures Answer(Sync(s, c), retry) == if OneRevisionPerKey(c.user, c.device, c.rows) then None else Some(Stale)
  {
    var u := Sync(s, c).table;
    forall i {:trigger c.rows[i]} | 0 <= i < |c.rows|
      ensures Settles(map[], u, KeyOf(c.user, c.device, c.rows[i]), c.rows[i])
    {
      AcceptedSettles(s.table, c.user, c.device, c.rows, i);
    }
    SettledAgain(u, c.user, c.device, c.rows);
    AcceptedAtStored(s.table, c.user, c.device, c.rows);
  }

  /** One key with revisions 1 and 2 in one batch: it is accepted, and its retry is stale. */
  lemma TwoRevisionsAreStale(scope: string, name: Name, usage: Usage, user: int, device: int, key: string)
    requires scope == DEVICE_LOCAL || scope == ACCOUNT_GLOBAL
    ensures var rows := [Row(scope, name, usage, 1), Row(scope, name, usage, 2)];
            var c := Call(user, device, key, rows, DiesBeforeRecord);
            Commits(EMPTY, c) && Answer(Sync(EMPTY, c), c.(fate := Completes)) == Some(Stale)
  {
    var rows := [Row(scope, name, usage, 1), Row(scope, name, usage, 2)];
    var c := Call(user, device, key, rows, DiesBeforeRecord);
    assert rows[..1] == [rows[0]] && rows[..1][..0] == [];
    assert ApplyRows(map[], user, device, rows[..1]) == ApplyRow(map[], user, device, rows[0]);
    assert KeyOf(user, device, rows[0]) == KeyOf(user, device, rows[1]) && rows[0].revision != rows[1].revision;
    RetryIsNeutralIff(EMPTY, c, c.(fate := Completes));
  }

  // ---------- the program ----------

  class UsageStore {
    var table: Table
    var seen: map<(int, string), seq<Row>>

    function View(): State
      reads this
    {
      State(table, seen)
    }

    constructor ()
      ensures View() == EMPTY
    {
      table, seen := map[], map[];
    }

    /** ApplyUsage: a transaction that is rolled back at the first stale or clashing row. */
    method ApplyUsage(user: int, device: int, rows: seq<Row>, fate: Fate) returns (error: Option<Error>)
      modifies this`table
      ensures var r := ApplyRows(old(table), user, device, rows);
              && error == (if r.Err? then Some(r.error) else if fate == DiesBeforeCommit then Some(Lost) else None)
              && table == (if error.None? then r.table else old(table))
      ensures forall k :: Lookup(table, k) != Lookup(old(table), k) ==> OwnEntry(k, user, device)
    {
      var tx := table;
      for i := 0 to |rows|
        invariant table == old(table)
        invariant ApplyRows(table, user, device, rows[..i]) == Ok(tx)
      {
        var row := rows[i];
        assert rows[..i + 1][..i] == rows[..i];
        var k := KeyOf(user, device, row);
        if k !in tx {
          tx := tx[k := EntryOf(device, row)];
        } else {
          if row.revision < tx[k].revision {
            ErrorStays(table, user, device, rows, i + 1);
            return Some(Stale);
          }
          if row.revision == tx[k].revision {
            if row.usage.miss != tx[k].usage.miss {
              ErrorStays(table, user, device, rows, i + 1);
              return Some(Clash);
            }
            continue;
          }
          tx := tx[k := EntryOf(device, row)];
        }
      }
      assert rows[..|rows|] == rows;
      if fate == DiesBeforeCommit {
        return Some(Lost);
      }
      assert rows[..|rows|] == rows;
      forall k | Lookup(tx, k) != Lookup(table, k) ensures OwnEntry(k, user, device) {
        ChangesOwnOnly(table, user, device, rows, k);
      }
      table := tx;
      return None;
    }

    /** SyncBatch. */
    method SyncBatch(c: Call) returns (error: Option<Error>)
      modifies this
      ensures View() == Sync(old(View()), c) && error == Answer(old(View()), c)
    {
      if (c.device, c.key) in seen {
        return if seen[(c.device, c.key)] != c.rows then Some(Reused) else None;
      }
      error := ApplyUsage(c.user, c.device, c.rows, c.fate);
      if error.Some? {
        return;
      }
      if c.fate == DiesBeforeRecord {
        return Some(Lost);
      }
      seen := seen[(c.device, c.key) := c.rows];
    }
  }

  lemma {:induction false} ErrorStays(t: Table, user: int, device: int, rows: seq<Row>, n: nat)
    requires n <= |rows| && ApplyRows(t, user, device, rows[..n]).Err?
    ensures ApplyRows(t, user, device, rows) == ApplyRows(t, user, device, rows[..n])
    decreases |rows|
  {
    if n < |rows| {
      var init := rows[..|rows| - 1];
      assert init[..n] == rows[..n];
      ErrorStays(t, user, device, init, n);
    } else {
      assert rows[..n] == rows;
    }
  }
}
