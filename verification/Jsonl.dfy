/** Model of internal/index/jsonl.go: one pass over the complete lines of a log,
    returning the offset of the first unconsumed byte. */
module Jsonl {
  import opened Wrappers

  type Byte = b: int | 0 <= b < 256
  type Bytes = seq<Byte>

  const NL: Byte := 10
  const CR: Byte := 13
  const MAX_LINE: nat := 10 * 1024 * 1024

  /** One delivered line, without its line ending, and where it starts. */
  datatype Record = Record(line: Bytes, at: nat)

  /** The per-line parser: the events of a line, or None for its error. */
  type LineParser<!E> = Record -> Option<seq<E>>

  /** What one pass yields. ok is false after a parser error or an unterminated
      line that is already too long. */
  datatype Parsed<E> = Parsed(events: seq<E>, end: nat, ok: bool)

  /** The first newline at or after i, or the length when there is none. */
  function Newline(s: Bytes, i: nat): (j: nat)
    requires i <= |s|
    ensures i <= j <= |s|
    ensures forall k :: i <= k < j ==> s[k] != NL
    ensures j < |s| ==> s[j] == NL
    decreases |s| - i
  {
    if i == |s| || s[i] == NL then i else Newline(s, i + 1)
  }

  function Strip(line: Bytes): Bytes {
    if |line| > 0 && line[|line| - 1] == CR then line[..|line| - 1] else line
  }

  /** The reference: all complete lines of s from offset i, in order. */
  function Parse<E>(s: Bytes, i: nat, fn: LineParser<E>): Parsed<E>
    requires i <= |s|
    decreases |s| - i
  {
    var j := Newline(s, i);
    if j == |s| then Parsed([], i, |s| - i <= MAX_LINE)
    else
      match Line(s, i, j, fn)
      case None => Parsed([], i, false)
      case Some(es) => Then(es, Parse(s, j + 1, fn))
  }

  /** The events of the line s[i..j]. A line over the limit is consumed unread. */
  function Line<E>(s: Bytes, i: nat, j: nat, fn: LineParser<E>): Option<seq<E>>
    requires i <= j < |s|
  {
    if j + 1 - i > MAX_LINE then Some([]) else fn(Record(Strip(s[i..j]), i))
  }

  function Then<E>(es: seq<E>, rest: Parsed<E>): Parsed<E> {
    rest.(events := es + rest.events)
  }

  /** The parser that delivers every line as it is. */
  const KeepAll: LineParser<Record> := r => Some([r])

  function Records(s: Bytes, i: nat): seq<Record>
    requires i <= |s|
  {
    Parse(s, i, KeepAll).events
  }

  // ---------- what is delivered ----------

  /** A complete line of at most the limit begins at p, behind i. */
  predicate LineAt(s: Bytes, i: nat, p: nat)
    requires i <= |s|
  {
    && i <= p < |s| && (p == i || s[p - 1] == NL) && Newline(s, p) < |s| && Newline(s, p) + 1 - p <= MAX_LINE
  }

  /** A line ends before its newline, and before a carriage return there. */
  lemma StripsReturn(line: Bytes)
    ensures Strip(line + [CR]) == line
    ensures line == [] || line[|line| - 1] != CR ==> Strip(line) == line
  {
    assert (line + [CR])[..|line|] == line;
  }

  lemma RecordsUnfold(s: Bytes, i: nat)
    requires i <= |s|
    ensures Newline(s, i) == |s| ==> Records(s, i) == []
    ensures var j := Newline(s, i);
            j < |s| ==>
              Records(s, i) == (if j + 1 - i <= MAX_LINE then [Record(Strip(s[i..j]), i)] else []) + Records(s, j + 1)
  {
  }

  lemma LinesUnfold(s: Bytes, i: nat, p: nat)
    requires i <= |s|
    ensures Newline(s, i) == |s| ==> !LineAt(s, i, p)
    ensures var j := Newline(s, i);
            j < |s| ==> (LineAt(s, i, p) <==> LineAt(s, j + 1, p) || (p == i && j + 1 - i <= MAX_LINE))
  {
    if Newline(s, i) == |s| && i <= p <= |s| {
      NoNewlineFrom(s, i, p);
    }
  }

  lemma {:induction false} RecordIsLine(s: Bytes, i: nat, r: Record)
    requires i <= |s|
    ensures r in Records(s, i) <==> LineAt(s, i, r.at) && r.line == Strip(s[r.at..Newline(s, r.at)])
    ensures r in Records(s, i) ==> i <= r.at
    decreases |s| - i
  {
    RecordsUnfold(s, i);
    LinesUnfold(s, i, r.at);
    hide Records;
    hide Strip;
    hide LineAt;
    if Newline(s, i) < |s| {
      RecordIsLine(s, Newline(s, i) + 1, r);
    }
  }

  lemma {:induction false} RecordsInOrder(s: Bytes, i: nat)
    requires i <= |s|
    ensures forall m, n :: 0 <= m < n < |Records(s, i)| ==> Records(s, i)[m].at < Records(s, i)[n].at
    decreases |s| - i
  {
    RecordsUnfold(s, i);
    hide Records;
    hide Strip;
    hide LineAt;
    var j := Newline(s, i);
    if j < |s| {
      RecordsInOrder(s, j + 1);
      forall r | r in Records(s, j + 1) ensures j < r.at {
        RecordIsLine(s, j + 1, r);
      }
    }
  }

  /** Every complete line is delivered, without its ending and with the offset of its first byte;
      nothing else is, and the lines come in order. */
  lemma RecordsAreLines(s: Bytes, i: nat)
    requires i <= |s|
    ensures forall r :: r in Records(s, i) <==>
              LineAt(s, i, r.at) && r.line == Strip(s[r.at..Newline(s, r.at)])
    ensures forall m, n :: 0 <= m < n < |Records(s, i)| ==> Records(s, i)[m].at < Records(s, i)[n].at
  {
    RecordsInOrder(s, i);
    hide Records;
    hide LineAt;
    hide Strip;
    forall r ensures r in Records(s, i) <==> LineAt(s, i, r.at) && r.line == Strip(s[r.at..Newline(s, r.at)]) {
      RecordIsLine(s, i, r);
    }
  }

  /** The events of some lines, read one by one. */
  function Read<E>(rs: seq<Record>, fn: LineParser<E>): Option<seq<E>> {
    if rs == [] then Some([])
    else match (fn(rs[0]), Read(rs[1..], fn))
         case (Some(es), Some(rest)) => Some(es + rest)
         case _ => None
  }

  /** A pass that succeeds has handed every delivered line to the parser once, in order. */
  lemma {:induction false} EventsAreRead<E>(s: Bytes, i: nat, fn: LineParser<E>)
    requires i <= |s| && Parse(s, i, fn).ok
    ensures Read(Records(s, i), fn) == Some(Parse(s, i, fn).events)
    decreases |s| - i
  {
    var j := Newline(s, i);
    if j < |s| {
      EventsAreRead(s, j + 1, fn);
      if j + 1 - i <= MAX_LINE {
        var here := Record(Strip(s[i..j]), i);
        assert Records(s, i) == [here] + Records(s, j + 1);
        assert Records(s, i)[1..] == Records(s, j + 1);
      } else {
        ThenNothing(Parse(s, j + 1, KeepAll));
        ThenNothing(Parse(s, j + 1, fn));
      }
    }
  }

  /** It succeeds exactly when the parser takes every line and what is left is not too long. */
  lemma {:induction false} PassSucceedsIff<E>(s: Bytes, i: nat, fn: LineParser<E>)
    requires i <= |s|
    ensures Parse(s, i, fn).ok <==> Read(Records(s, i), fn).Some? && Parse(s, i, KeepAll).ok
    decreases |s| - i
  {
    var j := Newline(s, i);
    if j < |s| {
      PassSucceedsIff(s, j + 1, fn);
      if j + 1 - i <= MAX_LINE {
        var here := Record(Strip(s[i..j]), i);
        assert Records(s, i) == [here] + Records(s, j + 1);
        assert Records(s, i)[1..] == Records(s, j + 1);
      } else {
        ThenNothing(Parse(s, j + 1, KeepAll));
        ThenNothing(Parse(s, j + 1, fn));
      }
    }
  }

  // ---------- resuming ----------

  lemma {:induction false} NewlineOfLonger(s: Bytes, u: Bytes, i: nat)
    requires s <= u && i <= |s| && Newline(s, i) < |s|
    ensures Newline(u, i) == Newline(s, i)
    decreases |s| - i
  {
    if s[i] != NL {
      NewlineOfLonger(s, u, i + 1);
    }
  }

  lemma ThenThen<E>(a: seq<E>, b: seq<E>, p: Parsed<E>)
    ensures Then(a, Then(b, p)) == Then(a + b, p)
  {
    assert a + (b + p.events) == a + b + p.events;
  }

  lemma ThenNothing<E>(p: Parsed<E>)
    ensures Then([], p) == p
  {
    assert [] + p.events == p.events;
  }

  /** Where a pass ends: on a line boundary with no newline after it. */
  lemma {:induction false} EndIsBoundary<E>(s: Bytes, i: nat, fn: LineParser<E>)
    requires i <= |s|
    ensures var p := Parse(s, i, fn);
            && i <= p.end <= |s| && (p.end == i || s[p.end - 1] == NL)
            && (p.ok ==> Newline(s, p.end) == |s| && |s| - p.end <= MAX_LINE)
    decreases |s| - i
  {
    var j := Newline(s, i);
    if j < |s| {
      EndIsBoundary(s, j + 1, fn);
    }
  }

  lemma EndIsInside<E>(s: Bytes, i: nat, fn: LineParser<E>)
    requires i <= |s|
    ensures Parse(s, i, fn).end <= |s|
  {
    EndIsBoundary(s, i, fn);
  }

  /** A pass over grown bytes is the earlier pass, resumed at its end. */
  lemma {:induction false} Resume<E>(s: Bytes, u: Bytes, i: nat, fn: LineParser<E>)
    requires s <= u && i <= |s| && Parse(s, i, fn).ok
    ensures Parse(s, i, fn).end <= |s|
    ensures var p := Parse(s, i, fn); Parse(u, i, fn) == Then(p.events, Parse(u, p.end, fn))
    decreases |s| - i
  {
    EndIsInside(s, i, fn);
    if Newline(s, i) == |s| {
      ThenNothing(Parse(u, i, fn));
    } else {
      Resume(s, u, Newline(s, i) + 1, fn);
      ResumeLine(s, u, i, fn);
    }
  }

  lemma ResumeLine<E>(s: Bytes, u: Bytes, i: nat, fn: LineParser<E>)
    requires s <= u && i <= |s| && Newline(s, i) < |s| && Line(s, i, Newline(s, i), fn).Some?
    requires Parse(s, Newline(s, i) + 1, fn).end <= |s|
    requires var rest := Parse(s, Newline(s, i) + 1, fn);
             Parse(u, Newline(s, i) + 1, fn) == Then(rest.events, Parse(u, rest.end, fn))
    ensures Parse(s, i, fn).end <= |s|
    ensures var p := Parse(s, i, fn); Parse(u, i, fn) == Then(p.events, Parse(u, p.end, fn))
  {
    var es, rest := Line(s, i, Newline(s, i), fn).value, Parse(s, Newline(s, i) + 1, fn);
    SameFirstLine(s, u, i, fn);
    ThenThen(es, rest.events, Parse(u, rest.end, fn));
  }

  /** Grown bytes begin with the same line. */
  lemma SameFirstLine<E>(s: Bytes, u: Bytes, i: nat, fn: LineParser<E>)
    requires s <= u && i <= |s| && Newline(s, i) < |s| && Line(s, i, Newline(s, i), fn).Some?
    ensures Parse(u, i, fn) == Then(Line(s, i, Newline(s, i), fn).value, Parse(u, Newline(s, i) + 1, fn))
  {
    NewlineOfLonger(s, u, i);
    LineOfLonger(s, u, i, Newline(s, i), fn);
  }

  lemma LineOfLonger<E>(s: Bytes, u: Bytes, i: nat, j: nat, fn: LineParser<E>)
    requires s <= u && i <= j < |s|
    ensures Line(u, i, j, fn) == Line(s, i, j, fn)
  {
    assert u[i..j] == s[i..j];
  }

  // ---------- resuming from an offset the pass did not end at ----------

  /** No deliverable line after o: every parser sees nothing there. */
  lemma {:induction false} SilentFrom<E>(s: Bytes, o: nat, fn: LineParser<E>)
    requires o <= |s| && Records(s, o) == []
    ensures Parse(s, o, fn).events == []
    ensures Parse(s, o, fn).end == Parse(s, o, KeepAll).end
    ensures Parse(s, o, fn).ok == Parse(s, o, KeepAll).ok
    decreases |s| - o
  {
    if Newline(s, o) < |s| {
      SilentFrom(s, Newline(s, o) + 1, fn);
    }
  }

  lemma {:induction false} KeepAllReads(s: Bytes, i: nat)
    requires i <= |s|
    ensures var p := Parse(s, i, KeepAll); i <= p.end <= |s| && Newline(s, p.end) == |s|
    ensures Parse(s, i, KeepAll).ok <==> |s| - Parse(s, i, KeepAll).end <= MAX_LINE
    decreases |s| - i
  {
    if Newline(s, i) < |s| {
      KeepAllReads(s, Newline(s, i) + 1);
    }
  }

  /** The offset that is stored: the end of the pass, but never past the size
      that was seen before the file was opened. */
  function Clamp(end: nat, size: nat): nat {
    if end > size then size else end
  }

  /** Resuming at the clamped offset is right for every parser and every later
      growth exactly when the file grew by no deliverable line after its size was read. */
  lemma ClampIsHarmless(s: Bytes, size: nat)
    requires size <= |s| && Parse(s, 0, KeepAll).ok
    ensures Clamp(Parse(s, 0, KeepAll).end, size) <= |s|
    ensures (forall u: Bytes :: s <= u ==>
             Records(s, 0) + Records(u, Clamp(Parse(s, 0, KeepAll).end, size)) == Records(u, 0))
            <==> Records(s, size) == []
  {
    var end := Parse(s, 0, KeepAll).end;
    var o := Clamp(end, size);
    EndIsBoundary(s, 0, KeepAll);
    KeepAllReads(s, o);
    EndIsBoundary(s, o, KeepAll);
    SameEndOk(s, o);
    forall u: Bytes | s <= u
      ensures Records(u, 0) == Records(s, 0) + Records(u, end)
      ensures Records(u, o) == Records(s, o) + Records(u, end)
    {
      Resume(s, u, 0, KeepAll);
      Resume(s, u, o, KeepAll);
    }
    SizePastEnd(s, size);
    if Records(s, size) != [] {
      assert |Records(s, 0) + Records(s, o)| > |Records(s, 0)|;
    } else {
      forall u: Bytes | s <= u
        ensures Records(s, 0) + Records(u, o) == Records(u, 0)
      {
        assert o == size ==> [] + Records(u, end) == Records(u, end);
      }
    }
  }

  /** A file that was empty when its size was read and held one line when it was: the
      clamped offset delivers that line a second time. */
  lemma LateLineComesTwice()
    ensures var s: Bytes := [65, NL]; var o := Clamp(Parse(s, 0, KeepAll).end, 0);
            o == 0 && Records(s, 0) == [Record([65], 0)] && Records(s, 0) + Records(s, o) != Records(s, 0)
  {
    var s: Bytes := [65, NL];
    assert Newline(s, 0) == 1 && Newline(s, 2) == 2;
    assert s[0..1] == [65];
    assert Parse(s, 2, KeepAll) == Parsed([], 2, true);
    assert Parse(s, 0, KeepAll) == Then([Record([65], 0)], Parse(s, 2, KeepAll));
  }

  lemma SameEndOk(s: Bytes, o: nat)
    requires o <= |s| && Parse(s, 0, KeepAll).ok && o <= Parse(s, 0, KeepAll).end
    ensures Parse(s, o, KeepAll).ok && Parse(s, o, KeepAll).end == Parse(s, 0, KeepAll).end
  {
    KeepAllReads(s, o);
    KeepAllReads(s, 0);
    EndIsBoundary(s, 0, KeepAll);
    EndIsBoundary(s, o, KeepAll);
    var e, f := Parse(s, 0, KeepAll).end, Parse(s, o, KeepAll).end;
  }

  lemma SizePastEnd(s: Bytes, size: nat)
    requires size <= |s| && Parse(s, 0, KeepAll).ok
    ensures size >= Parse(s, 0, KeepAll).end ==> Records(s, size) == []
  {
    EndIsBoundary(s, 0, KeepAll);
    var end := Parse(s, 0, KeepAll).end;
    if size >= end {
      NoNewlineFrom(s, end, size);
    }
  }

  lemma NoNewlineFrom(s: Bytes, e: nat, size: nat)
    requires e <= size <= |s| && Newline(s, e) == |s|
    ensures Newline(s, size) == |s|
  {
  }

  /** What a stored offset must satisfy, for the parser in use: from there the
      bytes already parsed deliver nothing more. */
  lemma SilentClamp<E>(s: Bytes, size: nat, fn: LineParser<E>)
    requires size <= |s| && Parse(s, 0, fn).ok && Records(s, size) == []
    ensures var p := Parse(s, 0, fn); var o := Clamp(p.end, size);
            o <= |s| && Parse(s, o, fn) == Parsed([], p.end, true)
  {
    var p := Parse(s, 0, fn);
    var o := Clamp(p.end, size);
    EndIsBoundary(s, 0, fn);
    if p.end > size {
      SilentFrom(s, o, fn);
      KeepAllReads(s, o);
      EndIsBoundary(s, o, fn);
    }
  }

  // ---------- the program ----------

  /** The outcome of one buffered read. */
  datatype ReadError = Nil | BufferFull | Eof | SkipLine | TooLong

  /** What one turn of the reading loop yields. */
  datatype Pass<E> = Took(events: seq<E>, size: nat) | Ended(ok: bool)

  /** bufio.Reader over an open file: `cap` bytes of buffer, `pos` bytes delivered. */
  class Reader {
    const data: Bytes
    const cap: nat
    var pos: nat

    ghost predicate Valid()
      reads this
    {
      cap > 0 && pos <= |data|
    }

    constructor (data: Bytes, start: nat, cap: nat)
      requires cap > 0 && start <= |data|
      ensures Valid() && this.data == data && pos == start
    {
      this.data := data;
      this.cap := cap;
      pos := start;
    }

    /** Up to and including the next newline, or a full buffer, or the rest. */
    method ReadSlice() returns (part: Bytes, e: ReadError)
      requires Valid()
      modifies this
      ensures Valid() && old(pos) <= pos && part == data[old(pos)..pos]
      ensures var j := Newline(data, old(pos));
              if j < |data| && j < old(pos) + cap then e == Nil && pos == j + 1
              else if old(pos) + cap <= |data| then e == BufferFull && pos == old(pos) + cap
              else e == Eof && pos == |data|
      ensures e == Nil <==> |part| > 0 && part[|part| - 1] == NL
      ensures e == BufferFull ==> Newline(data, pos) == Newline(data, old(pos))
    {
      var n := 0;
      while n < cap && pos + n < |data| && data[pos + n] != NL
        invariant n <= cap && pos + n <= |data|
        invariant Newline(data, pos + n) == Newline(data, pos)
      {
        n := n + 1;
      }
      if n < cap && pos + n < |data| {
        part, e := data[pos..pos + n + 1], Nil;
      } else if n == cap {
        part, e := data[pos..pos + n], BufferFull;
      } else {
        part, e := data[pos..], Eof;
      }
      pos := pos + |part|;
    }

    /** One line however many buffers it takes. */
    method ReadCompleteLine() returns (line: Bytes, complete: bool, e: ReadError)
      requires Valid()
      modifies this
      ensures Valid()
      ensures var i := old(pos); var j := Newline(data, i);
              if j < |data| then
                && complete && pos == j + 1 && |line| == j + 1 - i
                && (if j + 1 - i > MAX_LINE then e == SkipLine else e == Nil && line == data[i..j + 1])
              else !complete && e == if |data| - i > MAX_LINE then TooLong else Eof
    {
      ghost var i := pos;
      ghost var j := Newline(data, i);
      hide Newline;
      line := [];
      while true
        invariant Valid() && i <= pos <= j && line == data[i..pos]
        invariant Newline(data, pos) == j && |line| <= MAX_LINE
        decreases |data| - pos
      {
        ghost var p := pos;
        var part, err := ReadSlice();
        SliceJoin(data, i, p, pos);
        line := line + part;
        if |line| > MAX_LINE {
          line, complete, e := DrainOversize(line, err, i);
          return;
        }
        if |part| > 0 && part[|part| - 1] == NL {
          return line, true, err;
        }
        if err == BufferFull {
          continue;
        }
        return line, false, err;
      }
    }

    /** Reads on to the newline of a line that is already over the limit. */
    method DrainOversize(buf: Bytes, last: ReadError, ghost i: nat) returns (line: Bytes, complete: bool, e: ReadError)
      requires Valid() && i <= pos && buf == data[i..pos] && |buf| > MAX_LINE
      requires var j := Newline(data, i);
               || (last == Nil && j < |data| && pos == j + 1)
               || (last == BufferFull && pos <= j && Newline(data, pos) == j)
               || (last == Eof && j == |data| == pos)
      modifies this
      ensures Valid()
      ensures var j := Newline(data, i);
              if j < |data| then complete && pos == j + 1 && |line| == j + 1 - i && e == SkipLine
              else !complete && e == TooLong
    {
      var n := |buf|;
      if buf[n - 1] == NL {
        return DummyLine(n), true, SkipLine;
      }
      var err := last;
      ghost var j := Newline(data, i);
      while err == BufferFull
        invariant Valid() && i <= pos && n == pos - i > 0
        invariant err == BufferFull ==> pos <= j && Newline(data, pos) == j
        invariant err == Eof ==> j == |data|
        invariant err == BufferFull || err == Eof
        decreases |data| - pos, if err == BufferFull then 1 else 0
      {
        var part;
        part, err := ReadSlice();
        n := n + |part|;
        if |part| > 0 && part[|part| - 1] == NL {
          return DummyLine(n), true, SkipLine;
        }
      }
      return [], false, TooLong;
    }

    function DummyLine(n: nat): (line: Bytes)
      requires n > 0
      ensures |line| == n
    {
      seq(n - 1, _ => 0) + [NL]
    }

    /** Hands the line in raw, without its ending, to the parser. */
    method Deliver<E>(raw: Bytes, at: nat, fn: LineParser<E>) returns (got: Option<seq<E>>)
      requires at <= |data| && Newline(data, at) < |data|
      requires raw == data[at..Newline(data, at) + 1] && |raw| <= MAX_LINE
      ensures got == Line(data, at, Newline(data, at), fn)
    {
      assert raw[..|raw| - 1] == data[at..Newline(data, at)];
      var rec := Strip(raw[..|raw| - 1]);
      got := fn(Record(rec, at));
    }

    /** The body of the reading loop: one line and its events, or the end of the pass. */
    method PassLine<E>(at: nat, fn: LineParser<E>) returns (r: Pass<E>)
      requires Valid() && at == pos
      modifies this
      ensures Valid() && (r.Took? ==> r.size > 0 && pos == at + r.size)
      ensures r.Took? ==> Parse(data, at, fn) == Then(r.events, Parse(data, pos, fn))
      ensures r.Ended? ==> Parse(data, at, fn) == Parsed([], at, r.ok)
    {
      var raw, complete, e := ReadCompleteLine();
      if e == SkipLine && complete {
        return Took([], |raw|);
      } else if complete {
        var got := Deliver(raw, at, fn);
        return if got == None then Ended(false) else Took(got.value, |raw|);
      } else {
        return Ended(e == Eof);
      }
    }

    /** One pass to the end of what this reader sees. */
    method ScanJsonl<E>(fn: LineParser<E>) returns (events: seq<E>, consumed: nat, ok: bool)
      requires Valid()
      modifies this
      ensures Parsed(events, consumed, ok) == Parse(data, old(pos), fn)
    {
      ghost var whole := Parse(data, pos, fn);
      events, consumed := [], pos;
      ThenNothing(whole);
      while true
        invariant Valid() && consumed == pos && whole == Then(events, Parse(data, pos, fn))
        decreases |data| - pos
      {
        var r := PassLine(consumed, fn);
        match r {
          case Took(es, size) =>
            ThenThen(events, es, Parse(data, pos, fn));
            events, consumed := events + es, consumed + size;
          case Ended(done) =>
            assert events + [] == events;
            return events, consumed, done;
        }
      }
    }
  }

  lemma SliceJoin(s: Bytes, i: nat, p: nat, q: nat)
    requires i <= p <= q <= |s|
    ensures s[i..p] + s[p..q] == s[i..q]
  {
  }
}
