/** Model of internal/community/store.go and rank.go: the memory of the rank service, its
    sliding-window limiter, and competition ranks. */
module Community {
  import opened Clock
  import opened Int64
  import opened SortedDays
  import opened Wrappers

  const MAX_PUTS := 30
  const MIN_GAP: int := 2 * SECOND
  const DEFAULT_CROWD := 20

  /** One day of a participant; micro is the rounded cost of a completely priced day. */
  datatype Row = Row(tokens: int, micro: Option<int>)

  /** wellFormed is everything an upload is checked for besides its id. */
  datatype Upload = Upload(id: string, period: int, row: Row, wellFormed: bool)

  datatype State = State(days: map<string, map<int, Row>>, hits: map<string, seq<int>>)

  const EMPTY := State(map[], map[])

  predicate IsHex(c: char) {
    '0' <= c <= '9' || 'a' <= c <= 'f' || 'A' <= c <= 'F'
  }

  /** The pattern of a UUID. */
  predicate IsUuid(id: string) {
    |id| == 36 && forall i :: 0 <= i < 36 ==> if i in {8, 13, 18, 23} then id[i] == '-' else IsHex(id[i])
  }

  // ---------- the limiter ----------

  /** The stamps later than cut. */
  function After(hits: seq<int>, cut: int): seq<int> {
    if hits == [] then []
    else After(hits[..|hits| - 1], cut) + if hits[|hits| - 1] > cut then [hits[|hits| - 1]] else []
  }

  /** A refusal keeps the stamps as they are; a quick repeat drops the old ones without
      leaving a new one. */
  datatype Verdict = Refused | Repeats(hits: seq<int>) | Stamped(hits: seq<int>)

  /** rateLimitLocked. */
  function Limited(hits: seq<int>, now: int): Verdict {
    var kept := After(hits, now - HOUR);
    if |kept| >= MAX_PUTS then Refused
    else if |kept| > 0 && now - kept[|kept| - 1] < MIN_GAP then Repeats(kept)
    else Stamped(kept + [now])
  }

  function HitsOf(s: State, id: string): seq<int> {
    if id in s.hits then s.hits[id] else []
  }

  // ---------- the same, said plainly ----------

  predicate AllHex(s: string) {
    forall i :: 0 <= i < |s| ==> s[i] in "0123456789abcdefABCDEF"
  }

  /** A participant is five groups of hexadecimal digits joined by dashes. */
  lemma UuidIs(a: string, b: string, c: string, d: string, e: string)
    requires |a| == 8 && |b| == |c| == |d| == 4 && |e| == 12
    ensures IsUuid(a + "-" + b + "-" + c + "-" + d + "-" + e) <==>
              AllHex(a) && AllHex(b) && AllHex(c) && AllHex(d) && AllHex(e)
  {
    var id := a + "-" + b + "-" + c + "-" + d + "-" + e;
    assert id[..8] == a && id[9..13] == b && id[14..18] == c && id[19..23] == d && id[24..] == e;
    assert id[8] == id[13] == id[18] == id[23] == '-';
    HexIs(a);
    HexIs(b);
    HexIs(c);
    HexIs(d);
    HexIs(e);
    if AllHex(a) && AllHex(b) && AllHex(c) && AllHex(d) && AllHex(e) {
      forall i | 0 <= i < 36 && i !in {8, 13, 18, 23} ensures IsHex(id[i]) {
        if i < 8 {
          assert id[i] == a[i];
        } else if i < 13 {
          assert id[i] == b[i - 9];
        } else if i < 18 {
          assert id[i] == c[i - 14];
        } else if i < 23 {
          assert id[i] == d[i - 19];
        } else {
          assert id[i] == e[i - 24];
        }
      }
    }
    hide IsHex;
    hide AllHex;
  }

  lemma HexIs(s: string)
    ensures AllHex(s) <==> forall i :: 0 <= i < |s| ==> IsHex(s[i])
  {
    forall c: char ensures c in "0123456789abcdefABCDEF" <==> IsHex(c) {
      var hex := "0123456789abcdefABCDEF";
      assert hex[0] == '0' && hex[1] == '1' && hex[2] == '2' && hex[3] == '3' && hex[4] == '4' && hex[5] == '5';
      assert hex[6] == '6' && hex[7] == '7' && hex[8] == '8' && hex[9] == '9' && hex[10] == 'a' && hex[11] == 'b';
      assert hex[12] == 'c' && hex[13] == 'd' && hex[14] == 'e' && hex[15] == 'f' && hex[16] == 'A' && hex[17] == 'B';
      assert hex[18] == 'C' && hex[19] == 'D' && hex[20] == 'E' && hex[21] == 'F';
    }
  }

  /** Thirty stamps of the last hour refuse an upload; one that follows the last stamp within two
      seconds leaves no stamp; and only the stamps of the last hour are kept. */
  lemma LimitIs(hits: seq<int>, now: int)
    ensures var recent := After(hits, now - 3600 * SECOND);
            && (forall t :: t in recent <==> t in hits && now - t < 3600 * SECOND)
            && Limited(hits, now)
               == if |recent| >= 30 then Refused
                  else if recent != [] && now < recent[|recent| - 1] + 2 * SECOND then Repeats(recent)
                  else Stamped(recent + [now])
  {
    AfterIs(hits, now - HOUR);
  }

  lemma {:induction false} AfterIs(hits: seq<int>, cut: int)
    ensures forall t :: t in After(hits, cut) <==> t in hits && t > cut
  {
    if hits != [] {
      AfterIs(hits[..|hits| - 1], cut);
      assert hits == hits[..|hits| - 1] + [hits[|hits| - 1]];
    }
  }

  // ---------- the operations ----------

  datatype Op = Put(u: Upload, now: int) | Leave(who: string)

  function Actor(op: Op): string {
    if op.Put? then op.u.id else op.who
  }

  predicate Taken(s: State, u: Upload, now: int) {
    IsUuid(u.id) && u.wellFormed && !Limited(HitsOf(s, u.id), now).Refused?
  }

  function DaysOf(s: State, id: string): map<int, Row> {
    if id in s.days then s.days[id] else map[]
  }

  function Forget(s: State, id: string): State {
    State(s.days - {id}, s.hits - {id})
  }

  function Next(s: State, op: Op): State {
    match op
    case Put(u, now) =>
      if !Taken(s, u, now) then s
      else State(s.days[u.id := DaysOf(s, u.id)[u.period := u.row]], s.hits[u.id := Limited(HitsOf(s, u.id), now).hits])
    case Leave(id) => if !IsUuid(id) || id !in s.days then s else Forget(s, id)
  }

  /** An upload that passes is the participant's row of its period; nothing else of anybody changes but
      the participant's stamps. */
  lemma PutReplaces(s: State, u: Upload, now: int)
    ensures !IsUuid(u.id) || !u.wellFormed || Limited(HitsOf(s, u.id), now).Refused? ==> Next(s, Put(u, now)) == s
    ensures IsUuid(u.id) && u.wellFormed && !Limited(HitsOf(s, u.id), now).Refused? ==>
              var after := Next(s, Put(u, now));
              && after.days - {u.id} == s.days - {u.id} && after.hits - {u.id} == s.hits - {u.id}
              && u.id in after.days && u.period in after.days[u.id] && after.days[u.id][u.period] == u.row
              && after.days[u.id] - {u.period} == (if u.id in s.days then s.days[u.id] - {u.period} else map[])
              && u.id in after.hits && after.hits[u.id] == Limited(HitsOf(s, u.id), now).hits
  {
  }

  function Run(ops: seq<Op>): State {
    if ops == [] then EMPTY else Next(Run(ops[..|ops| - 1]), ops[|ops| - 1])
  }

  // ---------- a departed participant leaves no trace ----------

  /** The trace without one participant's operations. */
  function Without(ops: seq<Op>, id: string): seq<Op> {
    if ops == [] then []
    else Without(ops[..|ops| - 1], id) + if Actor(ops[|ops| - 1]) == id then [] else [ops[|ops| - 1]]
  }

  /** Only ids that uploaded are known, each with its stamps. */
  ghost predicate Consistent(s: State) {
    && s.days.Keys == s.hits.Keys
    && (forall id :: id in s.days ==> IsUuid(id))
    && forall id :: id in s.hits ==> |s.hits[id]| <= MAX_PUTS
  }

  lemma {:induction false} RunIsConsistent(ops: seq<Op>)
    ensures Consistent(Run(ops))
  {
    if ops != [] {
      RunIsConsistent(ops[..|ops| - 1]);
    }
  }

  /** One step seen without a participant. */
  lemma ForgetStep(s: State, op: Op, id: string)
    ensures Forget(Next(s, op), id) == if Actor(op) == id then Forget(s, id) else Next(Forget(s, id), op)
  {
    if Actor(op) != id {
      var a := Actor(op);
      assert HitsOf(Forget(s, id), a) == HitsOf(s, a) && DaysOf(Forget(s, id), a) == DaysOf(s, a);
      assert a in Forget(s, id).days <==> a in s.days;
    }
  }

  lemma {:induction false} ForgetIsWithout(ops: seq<Op>, id: string)
    ensures Forget(Run(ops), id) == Run(Without(ops, id))
  {
    if ops != [] {
      var init, op := ops[..|ops| - 1], ops[|ops| - 1];
      ForgetIsWithout(init, id);
      ForgetStep(Run(init), op, id);
      var rest := Without(init, id);
      if Actor(op) == id {
        assert Without(ops, id) == rest;
      } else {
        assert (rest + [op])[..|rest|] == rest;
      }
    }
  }

  /** After a participant left, the whole state is that of the same trace without any of
      its operations: nothing that is asked later can tell it from an id never seen. */
  lemma LeaveLeavesNothing(ops: seq<Op>, id: string)
    ensures Run(ops + [Leave(id)]) == Run(Without(ops, id))
  {
    assert (ops + [Leave(id)])[..|ops|] == ops;
    ForgetIsWithout(ops, id);
    RunIsConsistent(ops);
    ForgetUnknown(Run(ops), id);
  }

  lemma ForgetUnknown(s: State, id: string)
    requires Consistent(s)
    ensures Next(s, Leave(id)) == Forget(s, id)
  {
    if id !in s.days {
      assert s.days - {id} == s.days && s.hits - {id} == s.hits;
    }
  }

  // ---------- at most thirty recorded stamps in any hour ----------

  predicate InOrder(ops: seq<Op>) {
    forall i, j :: 0 <= i < j < |ops| && ops[i].Put? && ops[j].Put? ==> ops[i].now <= ops[j].now
  }

  /** The upload leaves a new stamp. */
  predicate Records(s: State, op: Op, id: string) {
    op.Put? && op.u.id == id && Taken(s, op.u, op.now) && Limited(HitsOf(s, id), op.now).Stamped?
  }

  /** Every stamp recorded for a participant since it last left. */
  function Stamps(ops: seq<Op>, id: string): seq<int> {
    if ops == [] then []
    else
      var init := ops[..|ops| - 1];
      StampsNext(Run(init), Stamps(init, id), ops[|ops| - 1], id)
  }

  function StampsNext(s: State, stamps: seq<int>, op: Op, id: string): seq<int> {
    if op == Leave(id) && id in s.days then [] else if Records(s, op, id) then stamps + [op.now] else stamps
  }

  lemma {:induction false} AfterConcat(a: seq<int>, b: seq<int>, cut: int)
    ensures After(a + b, cut) == After(a, cut) + After(b, cut)
    decreases |b|
  {
    if b == [] {
      assert a + b == a;
    } else {
      assert (a + b)[..|a + b| - 1] == a + b[..|b| - 1];
      AfterConcat(a, b[..|b| - 1], cut);
    }
  }

  lemma {:induction false} AfterAfter(hits: seq<int>, low: int, cut: int)
    requires low <= cut
    ensures After(After(hits, low), cut) == After(hits, cut) && |After(hits, cut)| <= |After(hits, low)|
  {
    if hits != [] {
      var init, last := hits[..|hits| - 1], hits[|hits| - 1];
      AfterAfter(init, low, cut);
      AfterConcat(After(init, low), if last > low then [last] else [], cut);
      assert last > low ==> After([last], cut) == (if last > cut then [last] else []) by {
        assert [last][..0] == [];
      }
    }
  }

  /** Seen from any instant no earlier than the clock, the stored stamps are the recorded ones. */
  ghost predicate Faithful(s: State, stamps: seq<int>, id: string, clock: int) {
    forall cut :: cut >= clock - HOUR ==> After(HitsOf(s, id), cut) == After(stamps, cut)
  }

  /** No window of an hour that ends at a stamp holds more than thirty. */
  ghost predicate Spaced(stamps: seq<int>) {
    forall n :: 0 < n <= |stamps| ==> EndsWell(stamps, n)
  }

  /** The first n stamps are no later than the last of them, which fills no hour. */
  ghost predicate EndsWell(stamps: seq<int>, n: nat)
    requires 0 < n <= |stamps|
  {
    var last := stamps[n - 1];
    |After(stamps[..n], last - HOUR)| <= MAX_PUTS && forall i :: 0 <= i < n ==> stamps[i] <= last
  }

  ghost predicate Before(ops: seq<Op>, clock: int) {
    forall i :: 0 <= i < |ops| && ops[i].Put? ==> ops[i].now <= clock
  }

  lemma LimitedAt(hits: seq<int>, stamps: seq<int>, now: int, cut: int)
    requires cut >= now - HOUR && After(hits, cut) == After(stamps, cut) && !Limited(hits, now).Refused?
    ensures After(Limited(hits, now).hits, cut)
            == After(if Limited(hits, now).Stamped? then stamps + [now] else stamps, cut)
  {
    AfterAfter(hits, now - HOUR, cut);
  }

  lemma FaithfulAt(s: State, op: Op, stamps: seq<int>, id: string, cut: int)
    requires op.Put? && cut >= op.now - HOUR && After(HitsOf(s, id), cut) == After(stamps, cut)
    ensures After(HitsOf(Next(s, op), id), cut) == After(StampsNext(s, stamps, op, id), cut)
  {
    if op.u.id == id && Taken(s, op.u, op.now) {
      LimitedAt(HitsOf(s, id), stamps, op.now, cut);
      assert HitsOf(Next(s, op), id) == Limited(HitsOf(s, id), op.now).hits;
    } else {
      assert HitsOf(Next(s, op), id) == HitsOf(s, id);
    }
  }

  lemma FaithfulStep(s: State, op: Op, stamps: seq<int>, id: string)
    requires op.Put? && Faithful(s, stamps, id, op.now)
    ensures Faithful(Next(s, op), StampsNext(s, stamps, op, id), id, op.now)
  {
    forall cut | cut >= op.now - HOUR
      ensures After(HitsOf(Next(s, op), id), cut) == After(StampsNext(s, stamps, op, id), cut)
    {
      FaithfulAt(s, op, stamps, id, cut);
    }
  }

  lemma SpacedStep(stamps: seq<int>, now: int)
    requires Spaced(stamps) && (forall i :: 0 <= i < |stamps| ==> stamps[i] <= now)
             && |After(stamps, now - HOUR)| < MAX_PUTS
    ensures Spaced(stamps + [now])
  {
    var more := stamps + [now];
    forall n | 0 < n <= |more| ensures EndsWell(more, n) {
      if n <= |stamps| {
        EndsWellLonger(stamps, now, n);
      } else {
        assert more[..n] == more;
      }
    }
  }

  lemma EndsWellLonger(stamps: seq<int>, now: int, n: nat)
    requires 0 < n <= |stamps| && EndsWell(stamps, n)
    ensures EndsWell(stamps + [now], n)
  {
    assert (stamps + [now])[..n] == stamps[..n];
  }

  /** What holds of a participant's stamps at an instant no earlier than any upload. */
  ghost predicate Kept(s: State, stamps: seq<int>, id: string, clock: int) {
    Spaced(stamps) && Faithful(s, stamps, id, clock) && forall i :: 0 <= i < |stamps| ==> stamps[i] <= clock
  }

  lemma PutKeeps(s: State, op: Op, stamps: seq<int>, id: string)
    requires op.Put? && Kept(s, stamps, id, op.now)
    ensures Kept(Next(s, op), StampsNext(s, stamps, op, id), id, op.now)
  {
    FaithfulStep(s, op, stamps, id);
    if Records(s, op, id) {
      assert After(HitsOf(s, id), op.now - HOUR) == After(stamps, op.now - HOUR);
      SpacedStep(stamps, op.now);
    }
  }

  lemma {:induction false} StampsAreKept(ops: seq<Op>, id: string, clock: int)
    requires InOrder(ops) && Before(ops, clock)
    ensures Kept(Run(ops), Stamps(ops, id), id, clock)
  {
    if ops != [] {
      var init, op := ops[..|ops| - 1], ops[|ops| - 1];
      assert forall i :: 0 <= i < |init| ==> init[i] == ops[i];
      if op.Put? {
        StampsAreKept(init, id, op.now);
        PutKeeps(Run(init), op, Stamps(init, id), id);
      } else {
        StampsAreKept(init, id, clock);
        RunIsConsistent(init);
      }
    }
  }

  /** The stamps of the hour that ends at t. */
  function Window(stamps: seq<int>, t: int): seq<int> {
    if stamps == [] then []
    else Window(stamps[..|stamps| - 1], t) + if t - HOUR < stamps[|stamps| - 1] <= t then [stamps[|stamps| - 1]] else []
  }

  lemma {:induction false} WindowOfPast(stamps: seq<int>, t: int)
    requires forall i :: 0 <= i < |stamps| ==> stamps[i] <= t
    ensures Window(stamps, t) == After(stamps, t - HOUR)
  {
    if stamps != [] {
      WindowOfPast(stamps[..|stamps| - 1], t);
    }
  }

  lemma {:induction false} WindowIsBounded(stamps: seq<int>, t: int)
    requires Spaced(stamps)
    ensures |Window(stamps, t)| <= MAX_PUTS
  {
    if stamps != [] {
      var n := |stamps|;
      assert EndsWell(stamps, n) && stamps[..n] == stamps;
      if stamps[n - 1] <= t {
        WindowOfPast(stamps, t);
        AfterAfter(stamps, stamps[n - 1] - HOUR, t - HOUR);
      } else {
        SpacedPrefix(stamps, n - 1);
        WindowIsBounded(stamps[..n - 1], t);
      }
    }
  }

  lemma SpacedPrefix(stamps: seq<int>, m: nat)
    requires Spaced(stamps) && m <= |stamps|
    ensures Spaced(stamps[..m])
  {
    var init := stamps[..m];
    forall n | 0 < n <= m ensures EndsWell(init, n) {
      assert EndsWell(stamps, n) && init[..n] == stamps[..n];
    }
  }

  /** With a clock that does not run back, no hour holds more than thirty recorded stamps of
      one participant since it last left. */
  lemma HourlyLimit(ops: seq<Op>, id: string, t: int, clock: int)
    requires InOrder(ops) && Before(ops, clock)
    ensures |Window(Stamps(ops, id), t)| <= MAX_PUTS
  {
    StampsAreKept(ops, id, clock);
    WindowIsBounded(Stamps(ops, id), t);
  }
}
