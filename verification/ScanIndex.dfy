/** Model of internal/index/store.go: the scan cache that resumes a log from a byte
    offset, commits the events to the ledger, and only then moves its checkpoint. */
module ScanIndex {
  import opened Events
  import opened Jsonl
  import opened LedgerFacts
  import opened Wrappers
  import L = LedgerDb

  /** One row of the files table, and what a stat call says of a file. */
  datatype FileRow = FileRow(size: nat, mtime: int, inode: int, offset: nat)

  datatype Mode = Full | Incremental | Unchanged

  function Decide(prev: Option<FileRow>, cur: FileRow): Mode {
    match prev
    case None => Full
    case Some(p) =>
      if cur.size < p.size then Full
      else if p.inode != 0 && cur.inode != 0 && p.inode != cur.inode then Full
      else if cur.size == p.size && cur.mtime == p.mtime && cur.inode == p.inode then Unchanged
      else if cur.size == p.size && cur.mtime != p.mtime then Full
      else if cur.size > p.offset then Incremental
      else Full
  }

  /** A file on disk. */
  datatype Disk = Disk(content: Bytes, mtime: int, inode: int)

  function IdentOf(d: Disk): FileRow {
    FileRow(|d.content|, d.mtime, d.inode, |d.content|)
  }

  /** What the cache holds for one path, and the ledger facts. blob is None when the
      stored events are missing or cannot be decoded. */
  datatype State = State(row: Option<FileRow>, blob: Option<seq<UsageEvent>>, facts: Facts)

  /** What goes wrong during one call. CheckpointFails covers a crash after the facts
      were committed. */
  datatype Fault = NoFault | StatFails | OpenFails | SeekFails | FactsFail | CheckpointFails

  datatype Outcome = Outcome(events: seq<UsageEvent>, mode: Mode, ok: bool)

  // ---------- one call, as a function ----------

  /** The parser of a path: line by line, and then it can resume from an offset, or one that
      has to read the whole file, such as a cumulative log or a database. */
  datatype Parser = Lines(fn: LineParser<UsageEvent>) | Whole(read: Bytes -> Parsed<UsageEvent>)

  /** What one pass over all bytes yields. */
  function FullParse(c: Bytes, how: Parser): Parsed<UsageEvent> {
    match how
    case Lines(fn) => Parse(c, 0, fn)
    case Whole(read) => read(c)
  }

  /** The offset to store: of a replayed file the recorded size, as the whole file is the unit. */
  function StopOf(seen: Disk, end: nat, how: Parser): nat {
    if how.Whole? then |seen.content| else end
  }

  function Put(st: State, seen: Disk, offset: nat, evs: seq<UsageEvent>, fault: Fault): (State, bool) {
    if fault.FactsFail? && Reduced(evs) != map[] then (st, false)
    else
      var facts := Committed(st.facts, evs);
      if fault.CheckpointFails? then (st.(facts := facts), false)
      else (State(Some(IdentOf(seen).(offset := Clamp(offset, |seen.content|))), Some(evs), facts), true)
  }

  function FullLoad(st: State, seen: Disk, now: Bytes, how: Parser, fault: Fault): (State, Outcome) {
    if fault.OpenFails? then (st, Outcome([], Full, false))
    else
      var p := FullParse(now, how);
      if !p.ok then (st, Outcome(p.events, Full, false))
      else
        var (after, ok) := Put(st, seen, StopOf(seen, p.end, how), p.events, fault);
        (after, Outcome(p.events, Full, ok))
  }

  /** The pass from a stored offset; past the end there is nothing to read. */
  function PassFrom(now: Bytes, offset: nat, fn: LineParser<UsageEvent>): Parsed<UsageEvent> {
    if offset <= |now| then Parse(now, offset, fn) else Parsed([], offset, true)
  }

  /** load: the file is stat'ed as `seen` and read as `now`. */
  function Load(st: State, seen: Disk, now: Bytes, how: Parser, fault: Fault): (State, Outcome) {
    if fault.StatFails? then (st, Outcome([], Full, false))
    else
      match Decide(st.row, IdentOf(seen))
      case Unchanged =>
        (match st.blob
         case Some(evs) => (st, Outcome(evs, Unchanged, true))
         case None => FullLoad(st, seen, now, how, fault))
      case Incremental =>
        if how.Whole? || st.blob.None? || fault.SeekFails? then FullLoad(st, seen, now, how, fault)
        else if fault.OpenFails? then (st, Outcome([], Full, false))
        else
          var p := PassFrom(now, st.row.value.offset, how.fn);
          if !p.ok then (st, Outcome(st.blob.value, Incremental, false))
          else
            var all := st.blob.value + p.events;
            var (after, ok) := Put(st, seen, p.end, all, fault);
            (after, Outcome(all, Incremental, ok))
      case Full => FullLoad(st, seen, now, how, fault)
  }

  // ---------- one call, as it looks from outside ----------

  /** The stat call finds size, time and inode as stored. */
  predicate SameStat(row: Option<FileRow>, seen: Disk) {
    row.Some? && row.value.size == |seen.content| && row.value.mtime == seen.mtime && row.value.inode == seen.inode
  }

  /** The stat call finds a file that can only have grown: not shorter, of no other inode, with
      bytes behind the stored offset, and not as long as before at another time. */
  predicate Grown(row: Option<FileRow>, seen: Disk) {
    && row.Some? && row.value.size <= |seen.content| && row.value.offset < |seen.content|
    && (row.value.inode == seen.inode || row.value.inode == 0 || seen.inode == 0)
    && (row.value.size == |seen.content| ==> row.value.mtime == seen.mtime && row.value.inode != seen.inode)
  }

  /** The call gets the file read and everything stored. */
  predicate Completes(evs: seq<UsageEvent>, fault: Fault) {
    fault == NoFault || fault == SeekFails || (fault == FactsFail && Reduced(evs) == map[])
  }

  /** before and after one call that parses the whole of `now`: it succeeds with these events
      and stores them with the stat call's numbers, or the stored row and events stay. */
  ghost predicate ReadWhole(st: State, seen: Disk, p: Parsed<UsageEvent>, offset: nat, fault: Fault, after: State,
                            out: Outcome)
  {
    && (out.ok <==> p.ok && Completes(p.events, fault))
    && (out.ok ==> out.events == p.events && out.mode == Full && after.blob == Some(p.events)
                   && after.row == Some(FileRow(|seen.content|, seen.mtime, seen.inode, offset))
                   && after.facts == Committed(st.facts, p.events))
    && (!out.ok ==> after.row == st.row && after.blob == st.blob
                    && (after.facts == st.facts || (p.ok && after.facts == Committed(st.facts, p.events))))
  }

  /** A replay call answers the stored events only while size, time and inode are as stored,
      and then changes nothing; otherwise, or when the events are lost, it reads the whole file
      again and stores its recorded size as the offset. */
  lemma ReplayCall(st: State, seen: Disk, now: Bytes, read: Bytes -> Parsed<UsageEvent>, fault: Fault)
    ensures var (after, out) := Load(st, seen, now, Whole(read), fault);
            if SameStat(st.row, seen) && st.blob.Some? then
              after == st && (!fault.StatFails? ==> out == Outcome(st.blob.value, Unchanged, true))
              && (fault.StatFails? ==> !out.ok)
            else ReadWhole(st, seen, read(now), |seen.content|, fault, after, out)
  {
  }

  /** A call that may resume answers the stored events under the same condition; it goes on from
      the stored offset exactly when the file can only have grown and the events are there and
      the seek works, and reads the whole file otherwise. */
  lemma ResumeCall(st: State, seen: Disk, now: Bytes, fn: LineParser<UsageEvent>, fault: Fault)
    requires fault != StatFails
    ensures var (after, out) := Load(st, seen, now, Lines(fn), fault);
            if SameStat(st.row, seen) && st.blob.Some? then
              after == st && out == Outcome(st.blob.value, Unchanged, true)
            else if Grown(st.row, seen) && st.blob.Some? && fault != SeekFails then
              var all := st.blob.value + PassFrom(now, st.row.value.offset, fn).events;
              && (out.ok ==> out == Outcome(all, Incremental, true) && after.blob == Some(all))
              && (out.ok <==> PassFrom(now, st.row.value.offset, fn).ok && Completes(all, fault))
              && (!out.ok ==> after.row == st.row && after.blob == st.blob)
            else
              var p := Parse(now, 0, fn);
              ReadWhole(st, seen, p, if p.end > |seen.content| then |seen.content| else p.end, fault, after, out)
  {
    hide Committed;
    hide Parse;
    hide Reduced;
  }

  /** A call that succeeds leaves what it answered under the numbers of the stat call. */
  lemma TailIsStamped(st: State, seen: Disk, now: Bytes, fn: LineParser<UsageEvent>, fault: Fault)
    ensures var (after, out) := Load(st, seen, now, Lines(fn), fault);
            out.ok ==> after.blob == Some(out.events) && SameStat(after.row, seen) && fault != StatFails
  {
    hide Committed;
    hide Parse;
    hide Reduced;
  }

  // ---------- what a checkpoint is worth ----------

  /** The row may describe this file: no inode says otherwise. */
  predicate SameFile(r: FileRow, d: Disk) {
    !(r.inode != 0 && d.inode != 0 && r.inode != d.inode)
  }

  /** Resuming at r.offset after the cached events is a full parse, of every growth of c. */
  ghost predicate Resumable(r: FileRow, evs: seq<UsageEvent>, c: Bytes, fn: LineParser<UsageEvent>) {
    && r.offset <= r.size <= |c|
    && (forall u: Bytes {:trigger Parse(u, 0, fn)} :: c <= u ==> Parse(u, 0, fn) == Then(evs, Parse(u, r.offset, fn)))
  }

  /** The file is no shorter than recorded, and while it is as long the cached events are its own. */
  ghost predicate Cached(r: FileRow, evs: seq<UsageEvent>, c: Bytes, how: Parser) {
    r.size <= |c| && (|c| == r.size ==> FullParse(c, how).events == evs && FullParse(c, how).ok)
  }

  ghost predicate Consistent(st: State, d: Disk, how: Parser) {
    st.row.Some? && st.blob.Some? && SameFile(st.row.value, d) ==>
      && Cached(st.row.value, st.blob.value, d.content, how)
      && (how.Lines? ==> Resumable(st.row.value, st.blob.value, d.content, how.fn))
  }

  /** The file only grew between stat and read, and for a parser that resumes by no
      deliverable line. */
  ghost predicate Quiet(seen: Disk, now: Bytes, how: Parser) {
    seen.content <= now && (how.Lines? ==> Records(now, |seen.content|) == [])
  }

  lemma PutIsResumable(seen: Disk, now: Bytes, fn: LineParser<UsageEvent>)
    requires Quiet(seen, now, Lines(fn)) && Parse(now, 0, fn).ok
    ensures var p := Parse(now, 0, fn);
            Resumable(IdentOf(seen).(offset := Clamp(p.end, |seen.content|)), p.events, now, fn)
  {
    var p := Parse(now, 0, fn);
    var o := Clamp(p.end, |seen.content|);
    SilentClamp(now, |seen.content|, fn);
    EndIsBoundary(now, 0, fn);
    forall u: Bytes | now <= u
      ensures Parse(u, 0, fn) == Then(p.events, Parse(u, o, fn))
    {
      Resume(now, u, 0, fn);
      Resume(now, u, o, fn);
      ThenNothing(Parse(u, p.end, fn));
    }
  }

  /** The bytes a successful answer stands for. */
  function Observed(seen: Disk, now: Bytes, mode: Mode): Bytes {
    if mode == Unchanged then seen.content else now
  }

  lemma StaysConsistent(st: State, d: Disk, longer: Bytes, how: Parser)
    requires Consistent(st, d, how) && d.content <= longer
    ensures Consistent(st, d.(content := longer), how)
  {
    if st.row.Some? && st.blob.Some? && SameFile(st.row.value, d) && |longer| == st.row.value.size {
      assert longer == d.content;
    }
  }

  /** Storing what a full parse of `now` gives, resumed or not, makes the cache consistent. */
  lemma PutIsConsistent(st: State, seen: Disk, now: Bytes, how: Parser, fault: Fault)
    requires Quiet(seen, now, how) && FullParse(now, how).ok
    ensures var p := FullParse(now, how);
            var (after, done) := Put(st, seen, StopOf(seen, p.end, how), p.events, fault);
            done ==> Consistent(after, seen.(content := now), how)
  {
    if how.Lines? {
      PutIsResumable(seen, now, how.fn);
    }
  }

  /** Resuming from the checkpoint comes to the same as starting over. */
  lemma TailIsFullParse(st: State, seen: Disk, now: Bytes, fn: LineParser<UsageEvent>)
    requires Consistent(st, seen, Lines(fn)) && seen.content <= now
    requires Decide(st.row, IdentOf(seen)) == Incremental && st.blob.Some?
    ensures var p, whole := PassFrom(now, st.row.value.offset, fn), Parse(now, 0, fn);
            p.ok == whole.ok && p.end == whole.end && st.blob.value + p.events == whole.events
  {
    assert Parse(now, 0, fn) == Then(st.blob.value, Parse(now, st.row.value.offset, fn));
  }

  /** Everything a call can do: nothing, or store the full parse of what it read; and
      when it succeeds, answer the cache of an unchanged file or that parse. */
  ghost predicate StoresFullParse(st: State, seen: Disk, now: Bytes, how: Parser, fault: Fault, after: State,
                                  out: Outcome)
  {
    var p := FullParse(now, how);
    var (stored, done) := Put(st, seen, StopOf(seen, p.end, how), p.events, fault);
    && (after == st || (p.ok && after == stored))
    && (out.ok ==> if out.mode == Unchanged then
                     after == st && st.blob == Some(out.events) && Decide(st.row, IdentOf(seen)) == Unchanged
                   else p.ok && done && after == stored && out.events == p.events)
  }

  /** The stat call leads to a full parse. */
  predicate Reparsed(st: State, d: Disk, how: Parser) {
    Decide(st.row, IdentOf(d)) == Full || (how.Whole? && Decide(st.row, IdentOf(d)) == Incremental)
  }

  /** The stored row and events may be used, or the stat call leads to a full parse. */
  ghost predicate Sound(st: State, d: Disk, how: Parser) {
    Consistent(st, d, how) || Reparsed(st, d, how)
  }

  lemma LoadStoresFullParse(st: State, seen: Disk, now: Bytes, how: Parser, fault: Fault)
    requires Sound(st, seen, how) && seen.content <= now
    ensures var (after, out) := Load(st, seen, now, how, fault);
            StoresFullParse(st, seen, now, how, fault, after, out)
  {
    if how.Lines? && Decide(st.row, IdentOf(seen)) == Incremental && st.blob.Some? {
      TailIsFullParse(st, seen, now, how.fn);
    }
  }

  /** One call: it keeps the checkpoint consistent, and when it succeeds its events
      are those of a single full parse. */
  lemma LoadIsFullParse(st: State, seen: Disk, now: Bytes, how: Parser, fault: Fault)
    requires Consistent(st, seen, how) && Quiet(seen, now, how)
    ensures var (after, out) := Load(st, seen, now, how, fault);
            var read := FullParse(Observed(seen, now, out.mode), how);
            Consistent(after, seen.(content := now), how) && (out.ok ==> read.ok && out.events == read.events)
  {
    LoadStoresFullParse(st, seen, now, how, fault);
    StaysConsistent(st, seen, now, how);
    if FullParse(now, how).ok {
      PutIsConsistent(st, seen, now, how, fault);
    }
  }

  /** A full parse that is stored makes the checkpoint right again, whatever was stored before. */
  lemma FullParseRestores(st: State, seen: Disk, now: Bytes, how: Parser, fault: Fault)
    requires Reparsed(st, seen, how) && Quiet(seen, now, how)
    ensures var (after, out) := Load(st, seen, now, how, fault);
            var read := FullParse(now, how);
            && (out.ok ==> Consistent(after, seen.(content := now), how) && out.mode == Full && read.ok
                           && out.events == read.events)
            && (!out.ok ==> after.row == st.row && after.blob == st.blob)
  {
    if FullParse(now, how).ok {
      PutIsConsistent(st, seen, now, how, fault);
    }
  }

  // ---------- runs ----------

  /** The log on disk and what is stored about it. rewritten says that the file was written
      over in place since the checkpoint was stored. */
  datatype World = World(disk: Disk, st: State, rewritten: bool)

  /** What happens between and during scans. During a scan the file may grow after
      its size was read. Other paths commit to the same ledger. */
  datatype Step =
    | Append(bytes: Bytes, mtime: int)
    | Touch(mtime: int)
    | Rewrite(content: Bytes, mtime: int)
    | Replace(content: Bytes, mtime: int, inode: int)
    | LoseBlob
    | OtherCommit(events: seq<UsageEvent>)
    | Scan(grown: Bytes, fault: Fault)

  function Next(w: World, s: Step, how: Parser): World {
    match s
    case Append(bytes, mtime) => w.(disk := w.disk.(content := w.disk.content + bytes, mtime := mtime))
    case Touch(mtime) => w.(disk := w.disk.(mtime := mtime))
    case Rewrite(content, mtime) => w.(disk := w.disk.(content := content, mtime := mtime), rewritten := true)
    case Replace(content, mtime, inode) => World(Disk(content, mtime, inode), w.st, false)
    case LoseBlob => w.(st := w.st.(blob := None))
    case OtherCommit(es) => w.(st := w.st.(facts := Committed(w.st.facts, es)))
    case Scan(grown, fault) =>
      var (after, out) := Answer(w, s, how);
      World(w.disk.(content := w.disk.content + grown), after, w.rewritten && !out.ok)
  }

  function Answer(w: World, s: Step, how: Parser): (State, Outcome)
    requires s.Scan?
  {
    Load(w.st, w.disk, w.disk.content + s.grown, how, s.fault)
  }

  /** A file that was written over in place is told from the stored one: it is shorter, or as
      long with another time, or, where it is replayed, longer. */
  predicate Noticed(w: World, how: Parser) {
    w.rewritten ==> Reparsed(w.st, w.disk, how)
  }

  /** A replacement gets an inode of its own; a file written over in place is noticed, and
      stays so until it is scanned; growth during a scan stays short of a complete line,
      unless the file is replayed. */
  ghost predicate Admissible(w: World, s: Step, how: Parser) {
    && Noticed(Next(w, s, how), how)
    && match s
       case Replace(_, _, inode) =>
         inode != 0 && (w.st.row.Some? ==> w.st.row.value.inode != 0 && w.st.row.value.inode != inode)
       case Scan(grown, _) => Quiet(w.disk, w.disk.content + grown, how)
       case _ => true
  }

  function Run(w: World, steps: seq<Step>, n: nat, how: Parser): World
    requires n <= |steps|
  {
    if n == 0 then w else Next(Run(w, steps, n - 1, how), steps[n - 1], how)
  }

  ghost predicate AdmissibleAt(w: World, steps: seq<Step>, k: nat, how: Parser)
    requires k < |steps|
  {
    Admissible(Run(w, steps, k, how), steps[k], how)
  }

  ghost predicate AdmissibleRun(w: World, steps: seq<Step>, how: Parser) {
    forall k :: 0 <= k < |steps| ==> AdmissibleAt(w, steps, k, how)
  }

  /** The checkpoint may be resumed, or the file was written over and the stat call tells. */
  ghost predicate Trusted(w: World, how: Parser) {
    if w.rewritten then Noticed(w, how) else Consistent(w.st, w.disk, how)
  }

  lemma StepKeepsTrusted(w: World, s: Step, how: Parser)
    requires Trusted(w, how) && Admissible(w, s, how)
    ensures Trusted(Next(w, s, how), how)
  {
    if !w.rewritten {
      match s
      case Append(bytes, mtime) => StaysConsistent(w.st, w.disk, w.disk.content + bytes, how);
      case Scan(grown, fault) => LoadIsFullParse(w.st, w.disk, w.disk.content + grown, how, fault);
      case _ =>
    } else if s.Scan? {
      FullParseRestores(w.st, w.disk, w.disk.content + s.grown, how, s.fault);
    }
  }

  lemma {:induction false} RunKeepsTrusted(w: World, steps: seq<Step>, n: nat, how: Parser)
    requires n <= |steps| && AdmissibleRun(w, steps, how) && Trusted(w, how)
    ensures Trusted(Run(w, steps, n, how), how)
  {
    if n > 0 {
      RunKeepsTrusted(w, steps, n - 1, how);
      assert AdmissibleAt(w, steps, n - 1, how);
      StepKeepsTrusted(Run(w, steps, n - 1, how), steps[n - 1], how);
    }
  }

  /** Whatever mixture of appends, partial lines, replacements, noticed rewrites, lost
      blobs, parse errors and crashes came before, starting from an empty cache: a scan
      that succeeds answers exactly the events of one full parse of the file, whether the
      path is resumed or replayed. */
  lemma EveryScanIsFullParse(w: World, steps: seq<Step>, n: nat, how: Parser)
    requires n < |steps| && steps[n].Scan? && AdmissibleRun(w, steps, how) && w.st.row == None
    ensures var before := Run(w, steps, n, how);
            var out := Answer(before, steps[n], how).1;
            var bytes := Observed(before.disk, before.disk.content + steps[n].grown, out.mode);
            out.ok ==> FullParse(bytes, how).ok && out.events == FullParse(bytes, how).events
  {
    RunKeepsTrusted(w, steps, n, how);
    assert AdmissibleAt(w, steps, n, how);
    var before := Run(w, steps, n, how);
    if before.rewritten {
      FullParseRestores(before.st, before.disk, before.disk.content + steps[n].grown, how, steps[n].fault);
    } else {
      LoadIsFullParse(before.st, before.disk, before.disk.content + steps[n].grown, how, steps[n].fault);
    }
  }

  // ---------- files written over in place ----------

  /** Whatever n bytes stand in the file now, and however lines are read: a scan without
      faults answers their full parse. */
  ghost predicate AnyBytesRead(st: State, n: nat, mtime: int, inode: int) {
    forall c: Bytes, fn: LineParser<UsageEvent> {:trigger Parse(c, 0, fn)} :: |c| == n ==>
      var out := Load(st, Disk(c, mtime, inode), c, Lines(fn), NoFault).1;
      out.ok ==> Parse(c, 0, fn).ok && out.events == Parse(c, 0, fn).events
  }

  /** The stat call leads to a full parse, or there is nothing stored that could be wrong. */
  predicate NothingKept(st: State, cur: FileRow)
    requires st.blob.Some?
  {
    match Decide(st.row, cur)
    case Full => true
    case Incremental => st.blob == Some([]) && st.row.value.offset == 0
    case Unchanged => st.blob == Some([]) && cur.size == 0
  }

  function NewLines(n: nat): (c: Bytes)
    ensures |c| == n && forall k :: 0 <= k < n ==> c[k] == NL
  {
    seq(n, _ => NL)
  }

  const BLANK := UsageEvent("", "", "", "", "", 0, NO_TOKENS, Unset, Local(""), false)

  /** The parser that answers the same events for every line. */
  function Always(es: seq<UsageEvent>): LineParser<UsageEvent> {
    _ => Some(es)
  }

  lemma {:induction false} ParseNewLines(n: nat, i: nat, es: seq<UsageEvent>)
    requires i <= n && |es| <= 1
    ensures Parse(NewLines(n), i, Always(es)).ok && |Parse(NewLines(n), i, Always(es)).events| == (n - i) * |es|
    decreases n - i
  {
    if i < n {
      ParseNewLines(n, i + 1, es);
      assert Newline(NewLines(n), i) == i;
      assert Line(NewLines(n), i, i, Always(es)) == Some(es);
    }
  }

  /** A file of that size that may have been written over in place is read right, whatever
      stands in it, exactly when the stat call leads to a full parse or nothing was kept. */
  lemma RewriteIsReadIff(st: State, n: nat, mtime: int, inode: int)
    requires st.blob.Some?
    ensures AnyBytesRead(st, n, mtime, inode) <==> NothingKept(st, FileRow(n, mtime, inode, n))
  {
    if NothingKept(st, FileRow(n, mtime, inode, n)) {
      forall c: Bytes, fn: LineParser<UsageEvent> | |c| == n
        ensures var out := Load(st, Disk(c, mtime, inode), c, Lines(fn), NoFault).1;
                out.ok ==> Parse(c, 0, fn).ok && out.events == Parse(c, 0, fn).events
      {
        KeptNothing(st, c, mtime, inode, fn);
      }
    } else {
      KeptSomething(st, n, mtime, inode, if st.blob == Some([]) then [BLANK] else []);
    }
  }

  lemma KeptNothing(st: State, c: Bytes, mtime: int, inode: int, fn: LineParser<UsageEvent>)
    requires st.blob.Some? && NothingKept(st, FileRow(|c|, mtime, inode, |c|))
    ensures var out := Load(st, Disk(c, mtime, inode), c, Lines(fn), NoFault).1;
            out.ok ==> Parse(c, 0, fn).ok && out.events == Parse(c, 0, fn).events
  {
    ThenNothing(Parse(c, 0, fn));
  }

  lemma KeptSomething(st: State, n: nat, mtime: int, inode: int, es: seq<UsageEvent>)
    requires st.blob.Some? && !NothingKept(st, FileRow(n, mtime, inode, n)) && |es| <= 1
    requires es == [] <==> st.blob != Some([])
    ensures !AnyBytesRead(st, n, mtime, inode)
  {
    var c, fn := NewLines(n), Always(es);
    ParseNewLines(n, 0, es);
    if Decide(st.row, FileRow(n, mtime, inode, n)) == Incremental {
      ParseNewLines(n, st.row.value.offset, es);
    }
    var out := Load(st, Disk(c, mtime, inode), c, Lines(fn), NoFault).1;
    assert out.ok && |out.events| != |Parse(c, 0, fn).events|;
  }

  /** A replayed file that may have been written over in place is read right, whatever stands
      in it and however it is read, exactly when the stat call tells it or nothing was kept. */
  lemma ReplayedRewriteIff(st: State, n: nat, mtime: int, inode: int)
    ensures (forall c: Bytes, read: Bytes -> Parsed<UsageEvent> {:trigger read(c)} :: |c| == n ==>
               var out := Load(st, Disk(c, mtime, inode), c, Whole(read), NoFault).1;
               out.ok ==> read(c).ok && out.events == read(c).events)
            <==> !(st.blob.Some? && st.row.Some? && st.row.value.size == n && st.row.value.mtime == mtime
                   && st.row.value.inode == inode)
  {
    var c := NewLines(n);
    var other: Bytes -> Parsed<UsageEvent> := _ => Parsed([], 0, false);
    assert !other(c).ok;
    forall c: Bytes, read: Bytes -> Parsed<UsageEvent> {:trigger read(c)} | |c| == n {
      ReplayCall(st, Disk(c, mtime, inode), c, read, NoFault);
    }
  }

  // ---------- the stored offset ----------

  ghost predicate AtBoundary(st: State, d: Disk) {
    st.row.Some? && SameFile(st.row.value, d) ==>
      var o := st.row.value.offset; o == 0 || (o <= |d.content| && d.content[o - 1] == NL)
  }

  predicate EndsLine(c: Bytes) {
    c == [] || c[|c| - 1] == NL
  }

  /** No newline arrives behind the recorded size, unless a line ended right there. */
  predicate Flush(w: World, s: Step) {
    s.Scan? ==> NL !in s.grown || EndsLine(w.disk.content)
  }

  lemma ClampedBoundary(c: Bytes, grown: Bytes, now: Bytes, fn: LineParser<UsageEvent>)
    requires now == c + grown && Parse(now, 0, fn).ok
    ensures var o := Clamp(Parse(now, 0, fn).end, |c|);
            (o == 0 || (o <= |c| && c[o - 1] == NL)) <==> NL !in grown || EndsLine(c)
  {
    EndIsBoundary(now, 0, fn);
    ClampBeforeGrowth(c, grown, Parse(now, 0, fn).end);
  }

  /** The last newline decides: it is in c, or it is in what came behind. */
  lemma ClampBeforeGrowth(c: Bytes, grown: Bytes, end: nat)
    requires end <= |c + grown| && (end == 0 || (c + grown)[end - 1] == NL)
    requires Newline(c + grown, end) == |c + grown|
    ensures var o := Clamp(end, |c|);
            (o == 0 || (o <= |c| && c[o - 1] == NL)) <==> NL !in grown || EndsLine(c)
  {
    if end > |c| {
      assert grown[end - 1 - |c|] == NL;
    } else {
      forall k | 0 <= k < |grown| ensures grown[k] != NL {
        assert grown[k] == (c + grown)[|c| + k];
      }
    }
  }

  /** Unless the file was written over since, the stored offset is a line boundary of it. */
  ghost predicate Aligned(w: World) {
    !w.rewritten ==> AtBoundary(w.st, w.disk)
  }

  /** A scan that stores a checkpoint leaves it on a line boundary exactly when no newline
      arrived behind the recorded size, or a line ended right there. */
  lemma StoredOffsetIff(w: World, s: Step, how: Parser)
    requires Trusted(w, how) && s.Scan? && how.Lines?
    requires Answer(w, s, how).1.ok && Answer(w, s, how).1.mode != Unchanged
    ensures AtBoundary(Next(w, s, how).st, Next(w, s, how).disk) <==> Flush(w, s)
  {
    LoadStoresFullParse(w.st, w.disk, w.disk.content + s.grown, how, s.fault);
    ClampedBoundary(w.disk.content, s.grown, w.disk.content + s.grown, how.fn);
  }

  lemma BoundaryStep(w: World, s: Step, how: Parser)
    requires how.Lines? && Aligned(w) && Trusted(w, how) && Admissible(w, s, how) && Flush(w, s)
    ensures Aligned(Next(w, s, how))
  {
    if s.Scan? {
      LoadStoresFullParse(w.st, w.disk, w.disk.content + s.grown, how, s.fault);
      if FullParse(w.disk.content + s.grown, how).ok {
        ClampedBoundary(w.disk.content, s.grown, w.disk.content + s.grown, how.fn);
      }
    }
  }

  predicate FlushAt(w: World, steps: seq<Step>, k: nat, how: Parser)
    requires k < |steps|
  {
    Flush(Run(w, steps, k, how), steps[k])
  }

  /** While every scan is flush in this sense, the stored offset is a line boundary. */
  lemma {:induction false} OffsetIsBoundary(w: World, steps: seq<Step>, n: nat, how: Parser)
    requires n <= |steps| && AdmissibleRun(w, steps, how) && w.st.row == None && how.Lines?
    requires forall k :: 0 <= k < |steps| ==> FlushAt(w, steps, k, how)
    ensures Aligned(Run(w, steps, n, how))
  {
    if n > 0 {
      OffsetIsBoundary(w, steps, n - 1, how);
      RunKeepsTrusted(w, steps, n - 1, how);
      assert AdmissibleAt(w, steps, n - 1, how) && FlushAt(w, steps, n - 1, how);
      BoundaryStep(Run(w, steps, n - 1, how), steps[n - 1], how);
    }
  }

  /** Of a replayed file the offset is always the recorded size. */
  lemma {:induction false} ReplayedOffset(w: World, steps: seq<Step>, n: nat, how: Parser)
    requires n <= |steps| && how.Whole? && w.st.row == None
    ensures var row := Run(w, steps, n, how).st.row; row.Some? ==> row.value.offset == row.value.size
  {
    if n > 0 {
      ReplayedOffset(w, steps, n - 1, how);
    }
  }

  // ---------- the ledger along the same runs ----------

  /** Without corrections no fact is removed and no counter goes down. */
  lemma {:induction false} FactsOnlyGrow(w: World, steps: seq<Step>, n: nat, how: Parser)
    requires n <= |steps| && AdmissibleRun(w, steps, how) && w.st.row == None
    ensures Grows(w.st.facts, Run(w, steps, n, how).st.facts)
  {
    if n > 0 {
      FactsOnlyGrow(w, steps, n - 1, how);
      RunKeepsTrusted(w, steps, n - 1, how);
      assert AdmissibleAt(w, steps, n - 1, how);
      FactsStep(Run(w, steps, n - 1, how), steps[n - 1], how);
      GrowsOn(w.st.facts, Run(w, steps, n - 1, how).st.facts, Run(w, steps, n, how).st.facts);
    }
  }

  lemma FactsStep(w: World, s: Step, how: Parser)
    requires Trusted(w, how) && Admissible(w, s, how)
    ensures Grows(w.st.facts, Next(w, s, how).st.facts)
  {
    match s
    case OtherCommit(es) => CommitGrows(w.st.facts, es);
    case Scan(grown, fault) =>
      var now := w.disk.content + grown;
      LoadStoresFullParse(w.st, w.disk, now, how, fault);
      CommitGrows(w.st.facts, FullParse(now, how).events);
    case _ =>
  }

  /** es has been committed for id; every growth of the log still yields it; and the
      cached events are part of it. */
  ghost predicate Ledgered(w: World, es: seq<UsageEvent>, id: string, how: Parser) {
    && Holds(w.st.facts, es, id)
    && (forall u: Bytes, e {:trigger e in FullParse(u, how).events} :: w.disk.content <= u && e in es ==>
        e in FullParse(u, how).events)
    && (w.st.blob.Some? ==> forall e :: e in w.st.blob.value ==> e in es)
    && (w.st.row.Some? ==> w.st.row.value.inode == w.disk.inode)
  }

  /** The log is only appended to, and id is fed by this path alone. */
  ghost predicate OnePath(steps: seq<Step>, id: string) {
    forall k :: 0 <= k < |steps| ==>
      match steps[k]
      case Rewrite(_, _) => false
      case Replace(_, _, _) => false
      case OtherCommit(es) => forall e :: e in es ==> !CountsFor(e, id)
      case _ => true
  }

  /** What was read stays in the file as it grows. A line parser sees to that; of a parser that
      reads the whole file it has to be known. */
  ghost predicate KeepsEvents(how: Parser) {
    how.Whole? ==>
      forall c: Bytes, u: Bytes, e {:trigger e in how.read(c).events, how.read(u)} ::
        c <= u && how.read(c).ok && e in how.read(c).events ==> e in how.read(u).events
  }

  lemma ParsedStays(now: Bytes, how: Parser)
    requires FullParse(now, how).ok && KeepsEvents(how)
    ensures forall u: Bytes, e {:trigger e in FullParse(u, how).events} ::
              now <= u && e in FullParse(now, how).events ==> e in FullParse(u, how).events
  {
    if how.Lines? {
      forall u: Bytes | now <= u {
        Resume(now, u, 0, how.fn);
      }
    }
  }

  /** What a stored full parse does to the record of commits. */
  lemma PutLedgers(w: World, es: seq<UsageEvent>, now: Bytes, id: string, how: Parser, fault: Fault)
    requires Ledgered(w, es, id, how) && w.disk.content <= now && FullParse(now, how).ok
    requires KeepsEvents(how)
    ensures var p := FullParse(now, how);
            var (stored, done) := Put(w.st, w.disk, StopOf(w.disk, p.end, how), p.events, fault);
            && Ledgered(w.(disk := w.disk.(content := now), st := stored),
                        if fault.FactsFail? && Reduced(p.events) != map[] then es else p.events, id, how)
            && (done ==> Holds(stored.facts, p.events, id))
  {
    ParsedStays(now, how);
    CommitHolds(w.st.facts, es, FullParse(now, how).events, id);
  }

  lemma LedgeredStep(w: World, s: Step, es: seq<UsageEvent>, id: string, how: Parser)
    returns (es': seq<UsageEvent>)
    requires Trusted(w, how) && Admissible(w, s, how) && OnePath([s], id) && Ledgered(w, es, id, how)
    requires KeepsEvents(how)
    ensures Ledgered(Next(w, s, how), es', id, how)
  {
    es' := es;
    assert OnePath([s], id) ==> [s][0] == s;
    match s
    case OtherCommit(other) => ForeignBatch(w.st.facts, other, id);
    case Scan(grown, fault) =>
      var now := w.disk.content + grown;
      LoadStoresFullParse(w.st, w.disk, now, how, fault);
      if Next(w, s, how).st != w.st {
        PutLedgers(w, es, now, id, how, fault);
        var whole := FullParse(now, how).events;
        es' := if fault.FactsFail? && Reduced(whole) != map[] then es else whole;
      }
    case _ =>
  }

  lemma {:induction false} LedgeredRun(w: World, steps: seq<Step>, n: nat, id: string, how: Parser)
    returns (es: seq<UsageEvent>)
    requires n <= |steps| && AdmissibleRun(w, steps, how) && OnePath(steps, id)
    requires KeepsEvents(how)
    requires w.st.row == None && w.st.blob == None && id !in w.st.facts
    ensures Ledgered(Run(w, steps, n, how), es, id, how)
  {
    if n == 0 {
      es := [];
    } else {
      es := LedgeredRun(w, steps, n - 1, id, how);
      RunKeepsTrusted(w, steps, n - 1, how);
      assert AdmissibleAt(w, steps, n - 1, how);
      es := LedgeredStep(Run(w, steps, n - 1, how), steps[n - 1], es, id, how);
    }
  }

  /** Along such a run, after every successful scan the counters stored for id are,
      component by component, the maximum over all events the log holds for it. */
  lemma LedgerIsMaximum(w: World, steps: seq<Step>, n: nat, id: string, how: Parser)
    requires n < |steps| && steps[n].Scan? && AdmissibleRun(w, steps, how) && OnePath(steps, id)
    requires KeepsEvents(how)
    requires w.st.row == None && w.st.blob == None && id !in w.st.facts
    ensures var before := Run(w, steps, n, how);
            var (after, out) := Answer(before, steps[n], how);
            out.ok ==> Holds(after.facts, out.events, id)
  {
    var es := LedgeredRun(w, steps, n, id, how);
    RunKeepsTrusted(w, steps, n, how);
    assert AdmissibleAt(w, steps, n, how);
    var before := Run(w, steps, n, how);
    var now := before.disk.content + steps[n].grown;
    LoadStoresFullParse(before.st, before.disk, now, how, steps[n].fault);
    if FullParse(now, how).ok {
      PutLedgers(before, es, now, id, how, steps[n].fault);
    }
    var out := Answer(before, steps[n], how).1;
    if out.ok && out.mode == Unchanged {
      LoadIsFullParse(before.st, before.disk, now, how, steps[n].fault);
    }
  }

  // ---------- the program ----------

  /** The cache database and the ledger it feeds. */
  class Store {
    var files: map<string, FileRow>
    var blobs: map<string, seq<UsageEvent>>
    const facts: L.Ledger

    constructor (facts: L.Ledger)
      ensures this.facts == facts && files == map[] && blobs == map[]
    {
      this.facts := facts;
      files, blobs := map[], map[];
    }

    function StateOf(path: string): State
      reads this, facts
    {
      State(if path in files then Some(files[path]) else None,
            if path in blobs then Some(blobs[path]) else None,
            facts.facts)
    }

    /** Facts first, in their own transaction; then the row and the blob, in another. */
    method Save(path: string, seen: Disk, offset: nat, evs: seq<UsageEvent>, fault: Fault) returns (ok: bool)
      requires facts.Valid()
      modifies this`files, this`blobs, facts`facts
      ensures facts.Valid()
      ensures (StateOf(path), ok) == Put(old(StateOf(path)), seen, offset, evs, fault)
      ensures files - {path} == old(files) - {path} && blobs - {path} == old(blobs) - {path}
    {
      CommitOfNothing(facts.facts, evs);
      if |evs| > 0 {
        var stored := facts.CommitUsage(evs, !fault.FactsFail?);
        if !stored {
          return false;
        }
      }
      if fault.CheckpointFails? {
        return false;
      }
      Checkpoint(path, seen, offset, evs);
      return true;
    }

    /** The row and the blob, with the offset cut back to the size from before the read. */
    method Checkpoint(path: string, seen: Disk, offset: nat, evs: seq<UsageEvent>)
      modifies this`files, this`blobs
      ensures StateOf(path) ==
              State(Some(IdentOf(seen).(offset := Clamp(offset, |seen.content|))), Some(evs), facts.facts)
      ensures files - {path} == old(files) - {path} && blobs - {path} == old(blobs) - {path}
    {
      var size := |seen.content|;
      files := files[path := FileRow(size, seen.mtime, seen.inode, if offset > size then size else offset)];
      blobs := blobs[path := evs];
    }

    /** The file is opened and read once, from `start`. */
    method ParseFrom(now: Bytes, start: nat, fn: LineParser<UsageEvent>)
      returns (events: seq<UsageEvent>, consumed: nat, ok: bool)
      ensures Parsed(events, consumed, ok) == PassFrom(now, start, fn)
    {
      if start > |now| {
        return [], start, true;
      }
      var r := new Reader(now, start, 64 * 1024);
      events, consumed, ok := r.ScanJsonl(fn);
    }

    /** One pass over all of it. */
    method ParseAll(now: Bytes, how: Parser) returns (events: seq<UsageEvent>, consumed: nat, ok: bool)
      ensures Parsed(events, consumed, ok) == FullParse(now, how)
    {
      match how {
        case Lines(fn) =>
          events, consumed, ok := ParseFrom(now, 0, fn);
        case Whole(read) =>
          var p := read(now);
          return p.events, p.end, p.ok;
      }
    }

    method LoadAll(path: string, seen: Disk, now: Bytes, how: Parser, replay: bool, fault: Fault)
      returns (out: Outcome)
      requires facts.Valid() && replay == how.Whole?
      modifies this`files, this`blobs, facts`facts
      ensures facts.Valid()
      ensures (StateOf(path), out) == FullLoad(old(StateOf(path)), seen, now, how, fault)
      ensures files - {path} == old(files) - {path} && blobs - {path} == old(blobs) - {path}
    {
      if fault.OpenFails? {
        return Outcome([], Full, false);
      }
      var evs, consumed, ok := ParseAll(now, how);
      if !ok {
        return Outcome(evs, Full, false);
      }
      var saved := Save(path, seen, if replay then |seen.content| else consumed, evs, fault);
      return Outcome(evs, Full, saved);
    }

    /** load. */
    method LoadPath(path: string, seen: Disk, now: Bytes, how: Parser, fault: Fault) returns (out: Outcome)
      requires facts.Valid()
      modifies this`files, this`blobs, facts`facts
      ensures facts.Valid()
      ensures (StateOf(path), out) == Load(old(StateOf(path)), seen, now, how, fault)
      ensures files - {path} == old(files) - {path} && blobs - {path} == old(blobs) - {path}
    {
      var incremental := how.Lines?;
      if fault.StatFails? {
        return Outcome([], Full, false);
      }
      var mode := Decide(if path in files then Some(files[path]) else None, IdentOf(seen));
      if mode == Unchanged && path in blobs {
        return Outcome(blobs[path], Unchanged, true);
      }
      if mode != Incremental || !incremental || path !in blobs || fault.SeekFails? {
        out := LoadAll(path, seen, now, how, !incremental, fault);
        return;
      }
      out := LoadTail(path, seen, now, how, fault);
    }

    /** The bytes behind the stored offset, added to what is cached. */
    method LoadTail(path: string, seen: Disk, now: Bytes, how: Parser, fault: Fault) returns (out: Outcome)
      requires facts.Valid() && how.Lines? && !fault.StatFails? && !fault.SeekFails?
      requires path in files && path in blobs && Decide(Some(files[path]), IdentOf(seen)) == Incremental
      modifies this`files, this`blobs, facts`facts
      ensures facts.Valid()
      ensures (StateOf(path), out) == Load(old(StateOf(path)), seen, now, how, fault)
      ensures files - {path} == old(files) - {path} && blobs - {path} == old(blobs) - {path}
    {
      if fault.OpenFails? {
        return Outcome([], Full, false);
      }
      var cached := blobs[path];
      var evs, consumed, ok := ParseFrom(now, files[path].offset, how.fn);
      if !ok {
        return Outcome(cached, Incremental, false);
      }
      var saved := Save(path, seen, consumed, cached + evs, fault);
      return Outcome(cached + evs, Incremental, saved);
    }

    /** The cached events are answered exactly while size, time and inode are as stored; bytes are
        read from the stored offset exactly when the file can only have grown. */
    method LoadOrParse(path: string, seen: Disk, now: Bytes, fn: LineParser<UsageEvent>, fault: Fault)
      returns (out: Outcome)
      requires facts.Valid()
      modifies this`files, this`blobs, facts`facts
      ensures facts.Valid()
      ensures out.ok ==>
                var row, kept := old(StateOf(path)).row, old(StateOf(path)).blob;
                if SameStat(row, seen) && kept.Some? then out == Outcome(kept.value, Unchanged, true)
                else if Grown(row, seen) && kept.Some? && fault != SeekFails then
                  out == Outcome(kept.value + PassFrom(now, row.value.offset, fn).events, Incremental, true)
                else Parse(now, 0, fn).ok && out == Outcome(Parse(now, 0, fn).events, Full, true)
      ensures out.ok ==> StateOf(path).blob == Some(out.events) && SameStat(StateOf(path).row, seen)
      ensures files - {path} == old(files) - {path} && blobs - {path} == old(blobs) - {path}
    {
      ghost var st := StateOf(path);
      out := LoadPath(path, seen, now, Lines(fn), fault);
      if fault != StatFails {
        ResumeCall(st, seen, now, fn, fault);
      }
      TailIsStamped(st, seen, now, fn, fault);
      hide Load;
    }

    /** The cached events are answered exactly while size, time and inode are as stored; otherwise
        the whole file is read again, and its size is stored as the offset. */
    method LoadOrReplay(path: string, seen: Disk, now: Bytes, read: Bytes -> Parsed<UsageEvent>, fault: Fault)
      returns (out: Outcome)
      requires facts.Valid()
      modifies this`files, this`blobs, facts`facts
      ensures facts.Valid()
      ensures var st := old(StateOf(path));
              if SameStat(st.row, seen) && st.blob.Some? then
                StateOf(path) == st && (fault != StatFails ==> out == Outcome(st.blob.value, Unchanged, true))
              else ReadWhole(st, seen, read(now), |seen.content|, fault, StateOf(path), out)
      ensures files - {path} == old(files) - {path} && blobs - {path} == old(blobs) - {path}
    {
      ghost var st := StateOf(path);
      out := LoadPath(path, seen, now, Whole(read), fault);
      ReplayCall(st, seen, now, read, fault);
      hide Load;
    }
  }

  lemma CommitOfNothing(facts: Facts, evs: seq<UsageEvent>)
    ensures Reduced(evs) == map[] ==> Committed(facts, evs) == facts
    ensures evs == [] ==> Reduced(evs) == map[]
  {
  }
}
