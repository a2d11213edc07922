/** Model of Correct, Revert and the publication permit of internal/ledger/ledger.go. */
module Corrections {
  import opened Events
  import opened Identity
  import opened Int64
  import opened LedgerFacts
  import opened Wrappers

  /** One row of the revisions table. The two payloads stand for their hashes too. */
  datatype Revision = Revision(id: string, reason: string, prevVersion: int, nextVersion: int, prev: Payload,
                               next: Payload)

  datatype Permit = Permit(reason: string, delta: int)

  /** What Correct and Revert read and write. */
  datatype Books = Books(facts: Facts, revisions: seq<Revision>, permit: Option<Permit>)

  datatype Outcome = Applied | NoOp | Rejected

  // ---------- reasons ----------

  predicate IsSpace(c: char) {
    c in " \t\n\r" || c == '\U{0b}' || c == '\U{0c}' || c == '\U{85}' || c == '\U{a0}'
  }

  function Trim(s: string): (t: string)
    ensures t != "" ==> !IsSpace(t[0]) && !IsSpace(t[|t| - 1])
  {
    if s == "" then ""
    else if IsSpace(s[0]) then Trim(s[1..])
    else if IsSpace(s[|s| - 1]) then Trim(s[..|s| - 1])
    else s
  }

  predicate Spaces(s: string) {
    forall i :: 0 <= i < |s| ==> IsSpace(s[i])
  }

  lemma SpaceIs(c: char)
    ensures IsSpace(c) <==> c as int in {0x09, 0x0a, 0x0b, 0x0c, 0x0d, 0x20, 0x85, 0xa0}
  {
  }

  lemma SpaceBefore(s: string, a: string, core: string, b: string)
    requires s != "" && IsSpace(s[0]) && s[1..] == a + core + b && Spaces(a)
    ensures s == [s[0]] + a + core + b && Spaces([s[0]] + a)
  {
    hide IsSpace;
    assert s == [s[0]] + s[1..];
  }

  lemma SpaceBehind(s: string, a: string, core: string, b: string)
    requires s != "" && IsSpace(s[|s| - 1]) && s[..|s| - 1] == a + core + b && Spaces(b)
    ensures s == a + core + (b + [s[|s| - 1]]) && Spaces(b + [s[|s| - 1]])
  {
    hide IsSpace;
    assert s == s[..|s| - 1] + [s[|s| - 1]];
  }

  /** Trimming takes white space off both ends and nothing else. */
  lemma {:induction false} TrimIsCore(s: string) returns (a: string, b: string)
    ensures s == a + Trim(s) + b && Spaces(a) && Spaces(b)
  {
    assert Spaces("");
    hide IsSpace;
    hide Spaces;
    if s == "" || (!IsSpace(s[0]) && !IsSpace(s[|s| - 1])) {
      a, b := "", "";
      assert s == "" + Trim(s) + "";
    } else if IsSpace(s[0]) {
      a, b := TrimIsCore(s[1..]);
      SpaceBefore(s, a, Trim(s), b);
      a := [s[0]] + a;
    } else {
      a, b := TrimIsCore(s[..|s| - 1]);
      SpaceBehind(s, a, Trim(s), b);
      b := b + [s[|s| - 1]];
    }
  }

  lemma TrimTwice(s: string)
    ensures Trim(Trim(s)) == Trim(s)
  {
  }

  function CleanReason(reason: string): (r: Option<string>)
    ensures r.Some? ==> r.value != "" && Trim(r.value) == r.value
  {
    TrimTwice(reason);
    var t := Trim(reason);
    if t == "" || |t| > 200 || '\r' in t || '\n' in t then None else Some(t)
  }

  function Lower(c: char): char {
    if 'A' <= c <= 'Z' then c + 32 as char else c
  }

  const TAG := "revert:"

  /** SQL's LIKE 'revert:%' does not see the case of ASCII letters. */
  predicate Tagged(reason: string) {
    |reason| >= |TAG| && forall k :: 0 <= k < |TAG| ==> Lower(reason[k]) == TAG[k]
  }

  function RevertReason(reason: string): (r: string)
    ensures Tagged(r)
  {
    if TAG <= reason then reason else TAG + reason
  }

  /** A tagged reason begins with the tag in any letter case, and a revert is recorded under the tag
      exactly once, unless its own reason spells it in lower case. */
  lemma TagIsSpelled(reason: string)
    ensures Tagged(reason) <==>
              |reason| >= 7 && reason[0] in "rR" && reason[1] in "eE" && reason[2] in "vV" && reason[3] in "eE"
              && reason[4] in "rR" && reason[5] in "tT" && reason[6] == ':'
    ensures RevertReason(reason) == if "revert:" <= reason then reason else "revert:" + reason
  {
    if Tagged(reason) {
      assert Lower(reason[0]) == 'r' && Lower(reason[1]) == 'e' && Lower(reason[2]) == 'v' && Lower(reason[3]) == 'e';
      assert Lower(reason[4]) == 'r' && Lower(reason[5]) == 't' && Lower(reason[6]) == ':';
    }
  }

  // ---------- the permit ----------

  function Tokens(p: Payload): int {
    Wrap(p.counters.miss + p.counters.cacheRead + p.counters.cacheCreate + p.counters.output)
  }

  /** Replacement tokens minus replaced tokens, as a machine subtraction. */
  function TokenDelta(next: Payload, cur: Payload): (d: int)
    ensures Fits(d)
  {
    Wrap(Tokens(next) - Tokens(cur))
  }

  function PermitAfter(stored: Option<int>, tokenDelta: int): Option<int> {
    var base := stored.GetOr(0);
    if tokenDelta == MIN || (tokenDelta < 0 && base > MAX + tokenDelta) then None
    else Some(Wrap(base - tokenDelta))
  }

  /** Permit arithmetic never wraps: it is exact, or refused because the exact
      value would leave int64. */
  lemma PermitArithmeticIsExact(stored: Option<int>, tokenDelta: int)
    requires Fits(tokenDelta) && (stored.Some? ==> 0 <= stored.value <= MAX)
    ensures PermitAfter(stored, tokenDelta) ==
            if Fits(stored.GetOr(0) - tokenDelta) then Some(stored.GetOr(0) - tokenDelta) else None
  {
  }

  function Amount(p: Option<Permit>): int {
    if p.Some? then p.value.delta else 0
  }

  function Delta(p: Option<Permit>): Option<int> {
    if p.Some? then Some(p.value.delta) else None
  }

  /** None is the refusal; Some carries the new permit. */
  function AdjustPermit(p: Option<Permit>, reason: string, tokenDelta: int): Option<Option<Permit>> {
    match PermitAfter(Delta(p), tokenDelta)
    case None => None
    case Some(next) =>
      if next <= 0 then Some(None)
      else
        var use := if Trim(reason) == "" && p.Some? then p.value.reason else Trim(reason);
        if Trim(use) == "" then Some(None) else Some(Some(Permit(use, next)))
  }

  // ---------- the two operations ----------

  function WriteFact(facts: Facts, id: string, payload: Payload, version: int): Facts
    requires id in facts
  {
    facts[id := Row(facts[id].fact.(payload := payload), version)]
  }

  function Correct(b: Books, e: UsageEvent, reason: string, version: int): (Books, Outcome) {
    if CleanReason(reason).None? || Key(e).None? || Key(e).value !in b.facts then (b, Rejected)
    else
      var why, id := CleanReason(reason).value, Key(e).value;
      var cur, next := b.facts[id], FactFrom(e, id).payload;
      if next == cur.fact.payload then (b, NoOp)
      else if version <= cur.version then (b, Rejected)
      else
        match AdjustPermit(b.permit, why, TokenDelta(next, cur.fact.payload))
        case None => (b, Rejected)
        case Some(permit) =>
          (Books(WriteFact(b.facts, id, next, version),
                 b.revisions + [Revision(id, why, cur.version, version, cur.fact.payload, next)], permit), Applied)
  }

  /** The position of the latest revision of id whose reason is not a revert tag, or -1. */
  function LatestCorrection(revisions: seq<Revision>, id: string): (i: int)
    ensures -1 <= i < |revisions|
    ensures i >= 0 ==> revisions[i].id == id && !Tagged(revisions[i].reason)
    ensures forall k :: i < k < |revisions| ==> revisions[k].id != id || Tagged(revisions[k].reason)
  {
    if revisions == [] then -1
    else
      var last := revisions[|revisions| - 1];
      if last.id == id && !Tagged(last.reason) then |revisions| - 1
      else LatestCorrection(revisions[..|revisions| - 1], id)
  }

  function Revert(b: Books, id: string, reason: string): (Books, Outcome) {
    if CleanReason(reason).None? || id !in b.facts || LatestCorrection(b.revisions, id) < 0 then (b, Rejected)
    else
      var why := RevertReason(CleanReason(reason).value);
      var cur, rev := b.facts[id], b.revisions[LatestCorrection(b.revisions, id)];
      if cur.fact.payload != rev.next || cur.version != rev.nextVersion then (b, NoOp)
      else
        match AdjustPermit(b.permit, "", TokenDelta(rev.prev, cur.fact.payload))
        case None => (b, Rejected)
        case Some(permit) =>
          (Books(WriteFact(b.facts, id, rev.prev, rev.prevVersion),
                 b.revisions + [Revision(id, why, cur.version, rev.prevVersion, cur.fact.payload, rev.prev)], permit),
           Applied)
  }

  // ---------- what the books keep ----------

  /** A stored permit is positive and has a reason; corrections raise versions. */
  ghost predicate Valid(b: Books) {
    && Filed(b.facts)
    && GoodPermit(b.permit)
    && (forall k {:trigger b.revisions[k]} :: 0 <= k < |b.revisions| && !Tagged(b.revisions[k].reason) ==>
          b.revisions[k].prevVersion < b.revisions[k].nextVersion)
  }

  lemma CorrectKeepsValid(b: Books, e: UsageEvent, reason: string, version: int)
    requires Valid(b)
    ensures Valid(Correct(b, e, reason, version).0)
  {
  }

  lemma RevertKeepsValid(b: Books, id: string, reason: string)
    requires Valid(b)
    ensures Valid(Revert(b, id, reason).0)
  {
  }

  // ---------- what a change does to the facts ----------

  /** The fact takes everything the event says of its usage, and keeps its identity; every other
      fact stays, and both payloads and versions go on record. */
  lemma CorrectReplaces(b: Books, e: UsageEvent, reason: string, version: int)
    requires Correct(b, e, reason, version).1 == Applied
    ensures var after, id := Correct(b, e, reason, version).0, Key(e).value;
            && id in b.facts && after.facts.Keys == b.facts.Keys && after.facts - {id} == b.facts - {id}
            && var was, now := b.facts[id], after.facts[id];
               && now.version == version && now.fact == was.fact.(payload := now.fact.payload)
               && now.fact.payload == Payload(e.model, e.vendor, e.ts, e.counters, e.quality, e.derivation)
               && after.revisions == b.revisions
                  + [Revision(id, Trim(reason), was.version, version, was.fact.payload, now.fact.payload)]
  {
  }

  /** A correction is refused without a reason of at most 200 characters on one line, without a
      stored fact, or at a version that is not higher; it is nothing when nothing changes; and it
      is applied otherwise, if the exact new permit is an int64. */
  lemma CorrectAppliesIff(b: Books, e: UsageEvent, reason: string, version: int)
    requires Valid(b)
    ensures var r := Correct(b, e, reason, version);
            if !(0 < |Trim(reason)| <= 200) || '\r' in Trim(reason) || '\n' in Trim(reason) || Key(e).None?
               || Key(e).value !in b.facts
            then r == (b, Rejected)
            else
              var was := b.facts[Key(e).value];
              var n, o := e.counters, was.fact.payload.counters;
              var change := Wrap((n.miss + n.cacheRead + n.cacheCreate + n.output)
                                 - (o.miss + o.cacheRead + o.cacheCreate + o.output));
              if was.fact.payload == Payload(e.model, e.vendor, e.ts, e.counters, e.quality, e.derivation) then
                r == (b, NoOp)
              else if version > was.version && Fits(Amount(b.permit) - change) then r.1 == Applied
              else r == (b, Rejected)
  {
    if Key(e).Some? && Key(e).value in b.facts {
      var cur, next := b.facts[Key(e).value].fact.payload, FactFrom(e, Key(e).value).payload;
      TokenDeltaIsChange(next, cur);
      PermitArithmeticIsExact(Delta(b.permit), TokenDelta(next, cur));
    }
    hide TokenDelta;
    hide PermitAfter;
    hide Wrap;
  }

  /** A revert undoes the latest untagged revision of the fact. Without a good reason or without
      such a revision it is refused; when the fact has another payload or version than that
      revision left, it is nothing; otherwise the fact gets payload and version back, if the
      exact new permit is an int64, and the step is on record under the revert tag. */
  lemma RevertAppliesIff(b: Books, id: string, why: string, i: nat)
    requires Valid(b) && i < |b.revisions| && b.revisions[i].id == id && !Tagged(b.revisions[i].reason)
    requires forall k :: i < k < |b.revisions| && b.revisions[k].id == id ==> Tagged(b.revisions[k].reason)
    requires 0 < |Trim(why)| <= 200 && '\r' !in Trim(why) && '\n' !in Trim(why) && id in b.facts
    ensures var (after, outcome) := Revert(b, id, why);
            var cur, rev := b.facts[id], b.revisions[i];
            var n, o := rev.prev.counters, cur.fact.payload.counters;
            var change := Wrap((n.miss + n.cacheRead + n.cacheCreate + n.output)
                               - (o.miss + o.cacheRead + o.cacheCreate + o.output));
            if cur.fact.payload != rev.next || cur.version != rev.nextVersion then (after, outcome) == (b, NoOp)
            else if !Fits(Amount(b.permit) - change) then (after, outcome) == (b, Rejected)
            else
              && outcome == Applied
              && after.facts == b.facts[id := Row(cur.fact.(payload := rev.prev), rev.prevVersion)]
              && after.revisions == b.revisions
                 + [Revision(id, RevertReason(Trim(why)), cur.version, rev.prevVersion, cur.fact.payload, rev.prev)]
  {
    assert LatestCorrection(b.revisions, id) == i;
    TokenDeltaIsChange(b.revisions[i].prev, b.facts[id].fact.payload);
    PermitArithmeticIsExact(Delta(b.permit), TokenDelta(b.revisions[i].prev, b.facts[id].fact.payload));
    hide TokenDelta;
    hide PermitAfter;
    hide Wrap;
    hide Trim;
    hide RevertReason;
  }

  /** Everything else is refused. */
  lemma RevertIsRefused(b: Books, id: string, why: string)
    requires || !(0 < |Trim(why)| <= 200) || '\r' in Trim(why) || '\n' in Trim(why) || id !in b.facts
             || forall k :: 0 <= k < |b.revisions| && b.revisions[k].id == id ==> Tagged(b.revisions[k].reason)
    ensures Revert(b, id, why) == (b, Rejected)
  {
  }

  // ---------- what a change does to the permit ----------

  /** The change of the four billed counters, as a register holds it. */
  lemma TokenDeltaIsChange(next: Payload, cur: Payload)
    ensures var n, c := next.counters, cur.counters;
            TokenDelta(next, cur)
            == Wrap((n.miss + n.cacheRead + n.cacheCreate + n.output)
                    - (c.miss + c.cacheRead + c.cacheCreate + c.output))
  {
    var n, c := next.counters, cur.counters;
    WrapDifference(n.miss + n.cacheRead + n.cacheCreate + n.output, c.miss + c.cacheRead + c.cacheCreate + c.output);
  }

  lemma WrapDifference(x: int, y: int)
    ensures Wrap(Wrap(x) - Wrap(y)) == Wrap(x - y)
  {
  }

  /** A permit there is, is good. */
  predicate GoodPermit(p: Option<Permit>) {
    p.Some? ==> 0 < p.value.delta <= MAX && p.value.reason != "" && Trim(p.value.reason) == p.value.reason
  }

  /** A change moves the amount, and never below nothing; a permit that remains bears the given
      reason, or without one the reason it had. */
  lemma AdjustMoves(p: Option<Permit>, reason: string, change: int)
    requires GoodPermit(p) && Fits(change) && AdjustPermit(p, reason, change).Some?
    ensures var next := AdjustPermit(p, reason, change).value;
            && GoodPermit(next)
            && Amount(next) == (if Trim(reason) == "" && p.None? then 0 else Int64.Max(0, Amount(p) - change))
            && (next.Some? ==> next.value.reason == if Trim(reason) == "" then p.value.reason else Trim(reason))
  {
    PermitArithmeticIsExact(Delta(p), change);
    TrimTwice(reason);
  }

  /** A correction moves the permit by the change of the billed counters, reasoning not among
      them; a permit that remains bears the correction's reason. */
  lemma CorrectMovesPermit(b: Books, e: UsageEvent, reason: string, version: int)
    requires Valid(b) && Correct(b, e, reason, version).1 == Applied
    ensures var n, o := e.counters, b.facts[Key(e).value].fact.payload.counters;
            var change := Wrap((n.miss + n.cacheRead + n.cacheCreate + n.output)
                               - (o.miss + o.cacheRead + o.cacheCreate + o.output));
            Amount(Correct(b, e, reason, version).0.permit) == Int64.Max(0, Amount(b.permit) - change)
    ensures var permit := Correct(b, e, reason, version).0.permit; permit.Some? ==> permit.value.reason == Trim(reason)
  {
    hide AdjustPermit;
    hide TokenDelta;
    hide Key;
    hide Trim;
    hide Wrap;
    var cur, next := b.facts[Key(e).value].fact.payload, FactFrom(e, Key(e).value).payload;
    assert next.counters == e.counters;
    hide FactFrom;
    TokenDeltaIsChange(next, cur);
    TrimTwice(reason);
    assert CleanReason(reason) == Some(Trim(reason));
    AdjustMoves(b.permit, CleanReason(reason).value, TokenDelta(next, cur));
    hide CleanReason;
    hide Filed;
  }

  /** So does a revert, of a permit that is there, keeping its reason; without one there is
      none afterwards. */
  lemma RevertMovesPermit(b: Books, id: string, why: string)
    requires Valid(b) && Revert(b, id, why).1 == Applied
    ensures var o, n := b.facts[id].fact.payload.counters, Revert(b, id, why).0.facts[id].fact.payload.counters;
            var change := Wrap((n.miss + n.cacheRead + n.cacheCreate + n.output)
                               - (o.miss + o.cacheRead + o.cacheCreate + o.output));
            Amount(Revert(b, id, why).0.permit)
            == if b.permit.Some? then Int64.Max(0, Amount(b.permit) - change) else 0
    ensures var permit := Revert(b, id, why).0.permit;
            permit.Some? ==> b.permit.Some? && permit.value.reason == b.permit.value.reason
  {
    var cur, rev := b.facts[id].fact.payload, b.revisions[LatestCorrection(b.revisions, id)];
    TokenDeltaIsChange(rev.prev, cur);
    AdjustMoves(b.permit, "", TokenDelta(rev.prev, cur));
    hide AdjustPermit;
    hide TokenDelta;
    hide Trim;
    hide Wrap;
  }

  // ---------- correct, then revert ----------

  lemma DeltaFlips(a: Payload, b: Payload)
    requires TokenDelta(a, b) != MIN
    ensures TokenDelta(b, a) == -TokenDelta(a, b)
  {
    var x, y := Tokens(a), Tokens(b);
    assert Fits(x - y) || Wrap(x - y) == x - y - SPAN || Wrap(x - y) == x - y + SPAN;
  }

  /** Undoing a correction restores the fact, its version and every other fact.
      The permit amount comes back unless the correction raised the tokens and
      thereby used up a permit that was there. */
  lemma CorrectThenRevert(b: Books, e: UsageEvent, reason: string, version: int, why: string)
    requires Valid(b) && Correct(b, e, reason, version).1 == Applied && CleanReason(why).Some?
    requires !Tagged(CleanReason(reason).value)
    ensures var after := Correct(b, e, reason, version).0;
            var (undone, outcome) := Revert(after, Key(e).value, why);
            && outcome == Applied && undone.facts == b.facts
            && |undone.revisions| == |b.revisions| + 2
    ensures var after := Correct(b, e, reason, version).0;
            var undone := Revert(after, Key(e).value, why).0;
            var rise := TokenDelta(FactFrom(e, Key(e).value).payload, b.facts[Key(e).value].fact.payload);
            Amount(undone.permit) == Amount(b.permit) <==> !(0 < Amount(b.permit) <= rise)
  {
    var id := Key(e).value;
    var cur, next := b.facts[id].fact.payload, FactFrom(e, id).payload;
    var after := Correct(b, e, reason, version).0;
    assert LatestCorrection(after.revisions, id) == |b.revisions|;
    var rise := TokenDelta(next, cur);
    DeltaFlips(next, cur);
    assert WriteFact(after.facts, id, cur, b.facts[id].version) == b.facts;
  }

  /** The revision a correction of id to this payload and version would leave behind. */
  predicate IsStep(b: Books, rev: Revision, id: string, next: Payload, version: int)
    requires id in b.facts
  {
    && rev.prev == b.facts[id].fact.payload && rev.prevVersion == b.facts[id].version
    && rev.next == next && rev.nextVersion == version
  }

  /** Revert would find the correction: its reason is untagged, or an older untagged
      revision of the fact made the very same step. */
  predicate Findable(b: Books, e: UsageEvent, reason: string, version: int)
    requires CleanReason(reason).Some? && Key(e).Some? && Key(e).value in b.facts
  {
    var id := Key(e).value;
    var older := LatestCorrection(b.revisions, id);
    || !Tagged(CleanReason(reason).value)
    || (older >= 0 && IsStep(b, b.revisions[older], id, FactFrom(e, id).payload, version))
  }

  /** A revert restores the facts from before a correction exactly when it finds it. A
      correction whose own reason starts with the revert tag, in any letter case, is
      otherwise refused to be reverted, or nothing is done. */
  lemma RevertRestoresIff(b: Books, e: UsageEvent, reason: string, version: int, why: string)
    requires Valid(b) && Correct(b, e, reason, version).1 == Applied && CleanReason(why).Some?
    ensures var after, id := Correct(b, e, reason, version).0, Key(e).value;
            var (undone, outcome) := Revert(after, id, why);
            undone.facts == b.facts <==> Findable(b, e, reason, version)
    ensures Tagged(CleanReason(reason).value) ==>
              var after, id := Correct(b, e, reason, version).0, Key(e).value;
              var older := LatestCorrection(b.revisions, id);
              && (older < 0 ==> Revert(after, id, why) == (after, Rejected))
              && (older >= 0 && (b.revisions[older].next != FactFrom(e, id).payload
                                 || b.revisions[older].nextVersion != version) ==>
                    Revert(after, id, why) == (after, NoOp))
  {
    var after, id := Correct(b, e, reason, version).0, Key(e).value;
    assert after.revisions[..|b.revisions|] == b.revisions;
    if !Tagged(CleanReason(reason).value) {
      CorrectThenRevert(b, e, reason, version, why);
    } else if LatestCorrection(b.revisions, id) >= 0 {
      TaggedRevert(b, e, reason, version, why);
    }
  }

  lemma TaggedRevert(b: Books, e: UsageEvent, reason: string, version: int, why: string)
    requires Valid(b) && Correct(b, e, reason, version).1 == Applied && CleanReason(why).Some?
    requires Tagged(CleanReason(reason).value) && LatestCorrection(b.revisions, Key(e).value) >= 0
    ensures var after, id := Correct(b, e, reason, version).0, Key(e).value;
            var rev := b.revisions[LatestCorrection(b.revisions, id)];
            Revert(after, id, why).0.facts == b.facts <==> IsStep(b, rev, id, FactFrom(e, id).payload, version)
  {
    var after, id := Correct(b, e, reason, version).0, Key(e).value;
    assert after.revisions[..|b.revisions|] == b.revisions;
    var rev := b.revisions[LatestCorrection(b.revisions, id)];
    var cur, next := b.facts[id].fact.payload, FactFrom(e, id).payload;
    WriteBack(b.facts, id, next, version, rev.prev, rev.prevVersion);
    RevertsTo(after, id, why);
    DeltaFlips(next, cur);
  }

  /** Where a revert leaves the facts. */
  lemma RevertsTo(b: Books, id: string, why: string)
    requires CleanReason(why).Some? && id in b.facts && LatestCorrection(b.revisions, id) >= 0
    ensures var rev, cur := b.revisions[LatestCorrection(b.revisions, id)], b.facts[id];
            Revert(b, id, why).0.facts ==
            if cur.fact.payload == rev.next && cur.version == rev.nextVersion
               && AdjustPermit(b.permit, "", TokenDelta(rev.prev, cur.fact.payload)).Some?
            then WriteFact(b.facts, id, rev.prev, rev.prevVersion) else b.facts
  {
  }

  /** Writing a fact over restores the table exactly with the old payload and version. */
  lemma WriteBack(facts: Facts, id: string, next: Payload, version: int, prev: Payload, prevVersion: int)
    requires id in facts
    ensures WriteFact(WriteFact(facts, id, next, version), id, prev, prevVersion) == facts
            <==> prev == facts[id].fact.payload && prevVersion == facts[id].version
    ensures WriteFact(facts, id, next, version) == facts
            <==> next == facts[id].fact.payload && version == facts[id].version
  {
  }

  /** Correct, revert, and correct the same way again with a tagged reason: the tagged
      correction is undone after all, because the first one stands for it. */
  lemma TaggedTwinIsUndone(b: Books, e: UsageEvent, reason: string, version: int, why: string, tagged: string)
    requires Valid(b) && Correct(b, e, reason, version).1 == Applied && CleanReason(why).Some?
    requires !Tagged(CleanReason(reason).value) && CleanReason(tagged).Some? && Tagged(CleanReason(tagged).value)
    ensures var undone := Revert(Correct(b, e, reason, version).0, Key(e).value, why).0;
            var (again, outcome) := Correct(undone, e, tagged, version);
            outcome == Applied && Revert(again, Key(e).value, why).0.facts == b.facts
  {
    var after, id := Correct(b, e, reason, version).0, Key(e).value;
    var undone := Revert(after, id, why).0;
    CorrectThenRevert(b, e, reason, version, why);
    CorrectKeepsValid(b, e, reason, version);
    RevertKeepsValid(after, id, why);
    assert undone.revisions[..|b.revisions| + 1] == after.revisions;
    assert LatestCorrection(undone.revisions, id) == |b.revisions|;
    CorrectsAgain(b, undone, e, reason, tagged, version);
    RevertRestoresIff(undone, e, tagged, version, why);
  }

  lemma CorrectsAgain(b: Books, undone: Books, e: UsageEvent, reason: string, tagged: string, version: int)
    requires Valid(b) && Valid(undone) && undone.facts == b.facts && Correct(b, e, reason, version).1 == Applied
    requires CleanReason(tagged).Some?
    requires var rise := TokenDelta(FactFrom(e, Key(e).value).payload, b.facts[Key(e).value].fact.payload);
             rise < 0 ==> Amount(undone.permit) == Amount(b.permit)
    ensures Correct(undone, e, tagged, version).1 == Applied
  {
  }

  // ---------- examples ----------

  const SAMPLE_ID := Join("s", "", "r")

  function Sample(tokens: int): UsageEvent {
    UsageEvent("s", "", "", "r", "", 0, Counters(tokens, 0, 0, 0, 0), Unset, Local(""), false)
  }

  /** One stored fact of five tokens, at version 1. */
  const ONE_FACT := Books(map[SAMPLE_ID := Row(FactFrom(Sample(5), SAMPLE_ID), 1)], [], None)

  lemma SampleKey(tokens: int)
    ensures Key(Sample(tokens)) == Some(SAMPLE_ID)
  {
    assert RequestKey(Sample(tokens)) == Some("r");
  }

  lemma FixIsPlain()
    ensures CleanReason("fix") == Some("fix") && !Tagged("fix")
  {
    assert Trim("fix") == "fix";
  }

  lemma TagIsTagged()
    ensures CleanReason("revert:x") == Some("revert:x") && Tagged("revert:x")
  {
    var reason := "revert:x";
    assert Trim(reason) == reason;
    assert reason[..|TAG|] == TAG;
    forall k | 0 <= k < |TAG| ensures Lower(reason[k]) == TAG[k] {
      assert reason[k] == reason[..|TAG|][k];
    }
  }

  lemma SampleCorrects()
    ensures Valid(ONE_FACT) && Correct(ONE_FACT, Sample(7), "fix", 2).1 == Applied
    ensures TokenDelta(FactFrom(Sample(7), SAMPLE_ID).payload, ONE_FACT.facts[SAMPLE_ID].fact.payload) == 2
  {
    SampleKey(7);
    FixIsPlain();
    SampleDelta();
  }

  lemma SampleDelta()
    ensures FactFrom(Sample(5), SAMPLE_ID).payload == PayloadOf(Sample(5))
    ensures FactFrom(Sample(7), SAMPLE_ID).payload == PayloadOf(Sample(7))
    ensures TokenDelta(PayloadOf(Sample(7)), PayloadOf(Sample(5))) == 2
  {
  }

  // A ledger with two facts of three and five tokens, the first of them corrected to two.

  const OTHER_ID := Join("s", "", "q")

  function Other(tokens: int): UsageEvent {
    Sample(tokens).(request := "q")
  }

  const TWO_FACTS := Books(Committed(map[], [Other(3), Sample(5)]), [], None)

  const LOWERED := Correct(TWO_FACTS, Other(2), "fix", 2).0

  lemma OtherKey(tokens: int)
    ensures Key(Other(tokens)) == Some(OTHER_ID) && OTHER_ID != SAMPLE_ID
  {
    assert RequestKey(Other(tokens)) == Some("q");
    assert OTHER_ID[|OTHER_ID| - 1] == 'q' && SAMPLE_ID[|SAMPLE_ID| - 1] == 'r';
  }

  lemma TwoFactsCommitted()
    ensures TWO_FACTS.facts == map[OTHER_ID := Row(FactFrom(Other(3), OTHER_ID), 1),
                                   SAMPLE_ID := Row(FactFrom(Sample(5), SAMPLE_ID), 1)]
  {
    SampleKey(5);
    OtherKey(3);
    assert FactFrom(Other(3), OTHER_ID).id == OTHER_ID && FactFrom(Sample(5), SAMPLE_ID).id == SAMPLE_ID;
    hide Key;
    hide Join;
    hide FactFrom;
    var es := [Other(3), Sample(5)];
    assert es[..1] == [Other(3)] && es[..1][..0] == [];
    assert Reduced(es[..1]) == map[OTHER_ID := FactFrom(Other(3), OTHER_ID)];
    assert Reduced(es) == map[OTHER_ID := FactFrom(Other(3), OTHER_ID), SAMPLE_ID := FactFrom(Sample(5), SAMPLE_ID)];
  }

  /** Lowering the one fact by a token leaves a permit of one. */
  lemma LoweringGivesPermit()
    ensures Correct(TWO_FACTS, Other(2), "fix", 2).1 == Applied && LOWERED.permit == Some(Permit("fix", 1))
    ensures LOWERED.facts == TWO_FACTS.facts[OTHER_ID := Row(FactFrom(Other(2), OTHER_ID), 2)]
  {
    TwoFactsCommitted();
    OtherKey(2);
    FixIsPlain();
    hide Committed;
    hide Key;
    hide Join;
    assert TokenDelta(PayloadOf(Other(2)), PayloadOf(Other(3))) == -1;
    assert Trim("fix") == "fix";
  }

  /** That permit of one is gone after a correction of the other fact from five to seven
      tokens, and stays gone when this correction is reverted. */
  lemma EatenPermitStaysGone()
    ensures Correct(TWO_FACTS, Other(2), "fix", 2).1 == Applied && Amount(LOWERED.permit) == 1
    ensures var (after, outcome) := Correct(LOWERED, Sample(7), "fix", 2);
            var undone := Revert(after, SAMPLE_ID, "fix").0;
            outcome == Applied && undone.facts == LOWERED.facts && Amount(undone.permit) != 1
  {
    LoweringGivesPermit();
    LoweredIsValid();
    hide Correct;
    hide Revert;
    hide Valid;
    EatsPermit(LOWERED);
  }

  lemma LoweredIsValid()
    ensures Valid(LOWERED) && SAMPLE_ID in LOWERED.facts
    ensures LOWERED.facts[SAMPLE_ID] == Row(FactFrom(Sample(5), SAMPLE_ID), 1)
  {
    TwoFactsCommitted();
    LoweringGivesPermit();
    OtherKey(2);
    hide Committed;
    hide Correct;
    hide Key;
    hide Join;
    CorrectKeepsValid(TWO_FACTS, Other(2), "fix", 2);
  }

  lemma EatsPermit(b: Books)
    requires Valid(b) && b.permit == Some(Permit("fix", 1))
    requires SAMPLE_ID in b.facts && b.facts[SAMPLE_ID] == Row(FactFrom(Sample(5), SAMPLE_ID), 1)
    ensures var (after, outcome) := Correct(b, Sample(7), "fix", 2);
            var undone := Revert(after, SAMPLE_ID, "fix").0;
            outcome == Applied && undone.facts == b.facts && Amount(undone.permit) != 1
  {
    SampleKey(7);
    FixIsPlain();
    SampleDelta();
    hide Key;
    hide Join;
    assert Correct(b, Sample(7), "fix", 2).1 == Applied;
    hide Correct;
    hide Revert;
    CorrectThenRevert(b, Sample(7), "fix", 2, "fix");
  }

  /** A correction with a tagged reason that no revert undoes, and the same one after a
      plain twin, which a revert does undo. */
  lemma TaggedBothWays()
    ensures var b := ONE_FACT;
            && Correct(b, Sample(7), "revert:x", 2).1 == Applied
            && Revert(Correct(b, Sample(7), "revert:x", 2).0, SAMPLE_ID, "fix").1 == Rejected
            && var undone := Revert(Correct(b, Sample(7), "fix", 2).0, SAMPLE_ID, "fix").0;
               Revert(Correct(undone, Sample(7), "revert:x", 2).0, SAMPLE_ID, "fix").0.facts == b.facts
  {
    var b := ONE_FACT;
    SampleKey(7);
    FixIsPlain();
    TagIsTagged();
    SampleCorrects();
    CorrectsAgain(b, b, Sample(7), "fix", "revert:x", 2);
    RevertRestoresIff(b, Sample(7), "revert:x", 2, "fix");
    TaggedTwinIsUndone(b, Sample(7), "fix", 2, "fix", "revert:x");
  }

  // ---------- runs ----------

  datatype Step = Commit(events: seq<UsageEvent>)
                | CorrectBy(event: UsageEvent, reason: string, version: int)
                | RevertOf(id: string, why: string)

  function Next(b: Books, s: Step): Books {
    match s
    case Commit(es) => b.(facts := Committed(b.facts, es))
    case CorrectBy(e, reason, version) => Correct(b, e, reason, version).0
    case RevertOf(id, why) => Revert(b, id, why).0
  }

  /** The change of the billed counters by a step that wrote a revision. */
  function DeltaOf(b: Books, s: Step): seq<int> {
    match s
    case Commit(_) => []
    case CorrectBy(e, reason, version) =>
      if Correct(b, e, reason, version).1 != Applied then []
      else
        var n, o := e.counters, b.facts[Key(e).value].fact.payload.counters;
        [Wrap((n.miss + n.cacheRead + n.cacheCreate + n.output) - (o.miss + o.cacheRead + o.cacheCreate + o.output))]
    case RevertOf(id, why) =>
      if Revert(b, id, why).1 != Applied then []
      else
        var n, o := Revert(b, id, why).0.facts[id].fact.payload.counters, b.facts[id].fact.payload.counters;
        [Wrap((n.miss + n.cacheRead + n.cacheCreate + n.output) - (o.miss + o.cacheRead + o.cacheCreate + o.output))]
  }

  function Run(b: Books, steps: seq<Step>): Books
    decreases |steps|
  {
    if steps == [] then b else Run(Next(b, steps[0]), steps[1..])
  }

  /** The token changes of a run, in order. */
  function Deltas(b: Books, steps: seq<Step>): seq<int>
    decreases |steps|
  {
    if steps == [] then [] else DeltaOf(b, steps[0]) + Deltas(Next(b, steps[0]), steps[1..])
  }

  lemma NextKeepsValid(b: Books, s: Step)
    requires Valid(b)
    ensures Valid(Next(b, s))
  {
    match s
    case Commit(es) => CommitGrows(b.facts, es);
    case CorrectBy(e, reason, version) => CorrectKeepsValid(b, e, reason, version);
    case RevertOf(id, why) => RevertKeepsValid(b, id, why);
  }

  // ---------- the second revert ----------

  /** The fact is not at the version its latest correction led to. */
  ghost predicate Settled(b: Books, id: string) {
    var i := LatestCorrection(b.revisions, id);
    i >= 0 && id in b.facts && b.facts[id].version != b.revisions[i].nextVersion
  }

  /** No step of the run corrects id. */
  ghost predicate LeavesAlone(steps: seq<Step>, id: string) {
    forall k :: 0 <= k < |steps| && steps[k].CorrectBy? ==> Key(steps[k].event) != Some(id)
  }

  lemma SettledStep(b: Books, s: Step, id: string)
    requires Valid(b) && Settled(b, id) && (s.CorrectBy? ==> Key(s.event) != Some(id))
    ensures Settled(Next(b, s), id)
  {
    match s
    case Commit(es) => CommitGrows(b.facts, es);
    case CorrectBy(e, reason, version) =>
      if Correct(b, e, reason, version).1 == Applied {
        assert Next(b, s).revisions[..|b.revisions|] == b.revisions;
      }
    case RevertOf(other, why) =>
      if Revert(b, other, why).1 == Applied {
        assert Next(b, s).revisions[..|b.revisions|] == b.revisions;
      }
  }

  lemma {:induction false} SettledRun(b: Books, steps: seq<Step>, id: string)
    requires Valid(b) && Settled(b, id) && LeavesAlone(steps, id)
    ensures Settled(Run(b, steps), id)
    decreases |steps|
  {
    if steps != [] {
      SettledStep(b, steps[0], id);
      NextKeepsValid(b, steps[0]);
      assert LeavesAlone(steps[1..], id) by {
        forall k | 0 <= k < |steps[1..]| && steps[1..][k].CorrectBy? ensures Key(steps[1..][k].event) != Some(id) {
          assert steps[1..][k] == steps[k + 1];
        }
      }
      SettledRun(Next(b, steps[0]), steps[1..], id);
    }
  }

  /** After a revert of id, every further revert of id does nothing, whatever scans,
      reverts and corrections of other facts come between, until id is corrected again. */
  lemma SecondRevertIsNoOp(b: Books, id: string, why: string, steps: seq<Step>, again: string)
    requires Valid(b) && Revert(b, id, why).1 == Applied && LeavesAlone(steps, id) && CleanReason(again).Some?
    ensures var now := Run(Revert(b, id, why).0, steps); Revert(now, id, again) == (now, NoOp)
  {
    RevertKeepsValid(b, id, why);
    SettledRun(Revert(b, id, why).0, steps, id);
  }

  // ---------- the permit over a run ----------

  function SumOf(ds: seq<int>): int {
    if ds == [] then 0 else SumOf(ds[..|ds| - 1]) + ds[|ds| - 1]
  }

  /** m is the largest net drop over all suffixes of the changes, the empty one included. */
  ghost predicate IsMaxDrop(ds: seq<int>, m: int) {
    && (exists k :: 0 <= k <= |ds| && m == -SumOf(ds[k..]))
    && (forall k :: 0 <= k <= |ds| ==> -SumOf(ds[k..]) <= m)
  }

  function MaxDrop(ds: seq<int>): int {
    if ds == [] then 0 else Int64.Max(0, MaxDrop(ds[..|ds| - 1]) - ds[|ds| - 1])
  }

  lemma SumSuffix(ds: seq<int>, k: nat)
    requires k < |ds|
    ensures SumOf(ds[k..]) == SumOf(ds[..|ds| - 1][k..]) + ds[|ds| - 1]
  {
    assert ds[k..][..|ds[k..]| - 1] == ds[..|ds| - 1][k..];
  }

  lemma {:induction false} MaxDropIsMaximum(ds: seq<int>)
    ensures IsMaxDrop(ds, MaxDrop(ds))
  {
    if ds == [] {
      assert ds[0..] == [] && SumOf(ds[0..]) == 0;
    } else {
      var init, d := ds[..|ds| - 1], ds[|ds| - 1];
      MaxDropIsMaximum(init);
      forall k | 0 <= k < |ds| ensures SumOf(ds[k..]) == SumOf(init[k..]) + d {
        SumSuffix(ds, k);
      }
      assert ds[|ds|..] == [];
      var k :| 0 <= k <= |init| && MaxDrop(init) == -SumOf(init[k..]);
      assert -SumOf(ds[k..]) == MaxDrop(init) - d;
      assert -SumOf(ds[|ds|..]) == 0;
    }
  }

  lemma AmountStep(b: Books, s: Step)
    requires Valid(b)
    ensures var ds := DeltaOf(b, s); |ds| <= 1
    ensures var ds := DeltaOf(b, s);
            if ds == [] then Amount(Next(b, s).permit) == Amount(b.permit)
            else Amount(Next(b, s).permit) <= Int64.Max(0, Amount(b.permit) - ds[0])
                 && (s.CorrectBy? ==> Amount(Next(b, s).permit) == Int64.Max(0, Amount(b.permit) - ds[0]))
  {
    hide AdjustPermit;
    hide Wrap;
    hide Trim;
    hide TokenDelta;
    hide CleanReason;
    if DeltaOf(b, s) != [] {
      match s
      case CorrectBy(e, reason, version) => CorrectMovesPermit(b, e, reason, version);
      case RevertOf(id, why) => RevertMovesPermit(b, id, why);
    }
    hide Filed;
  }

  ghost predicate NoReverts(steps: seq<Step>) {
    forall k :: 0 <= k < |steps| ==> !steps[k].RevertOf?
  }

  /** Starting without a permit, the permit never exceeds the largest net drop over
      the suffixes of the run, and equals it when every change is a correction. */
  lemma PermitOverRun(b: Books, steps: seq<Step>)
    requires Valid(b) && b.permit == None
    ensures exists m :: IsMaxDrop(Deltas(b, steps), m) && Amount(Run(b, steps).permit) <= m
              && (NoReverts(steps) ==> Amount(Run(b, steps).permit) == m)
  {
    PermitFollows(b, steps, []);
    assert [] + Deltas(b, steps) == Deltas(b, steps);
    MaxDropIsMaximum(Deltas(b, steps));
  }

  /** The permit after one step against the largest drop extended by its change. */
  lemma PermitStep(b: Books, s: Step, before: seq<int>)
    requires Valid(b) && Amount(b.permit) <= MaxDrop(before)
    ensures Amount(Next(b, s).permit) <= MaxDrop(before + DeltaOf(b, s))
    ensures !s.RevertOf? && Amount(b.permit) == MaxDrop(before) ==>
              Amount(Next(b, s).permit) == MaxDrop(before + DeltaOf(b, s))
  {
    var ds := DeltaOf(b, s);
    AmountStep(b, s);
    if ds == [] {
      assert before + ds == before;
    } else {
      assert (before + ds)[..|before|] == before;
    }
  }

  lemma {:induction false} PermitFollows(b: Books, steps: seq<Step>, before: seq<int>)
    requires Valid(b) && Amount(b.permit) <= MaxDrop(before)
    ensures Amount(Run(b, steps).permit) <= MaxDrop(before + Deltas(b, steps))
    ensures NoReverts(steps) && Amount(b.permit) == MaxDrop(before) ==>
              Amount(Run(b, steps).permit) == MaxDrop(before + Deltas(b, steps))
    decreases |steps|
  {
    if steps == [] {
      assert before + Deltas(b, steps) == before;
    } else {
      var next, ds := Next(b, steps[0]), DeltaOf(b, steps[0]);
      PermitStep(b, steps[0], before);
      NextKeepsValid(b, steps[0]);
      PermitFollows(next, steps[1..], before + ds);
      Associate(before, ds, Deltas(next, steps[1..]));
      assert NoReverts(steps) ==> !steps[0].RevertOf? && NoReverts(steps[1..]);
    }
  }

  lemma Associate(a: seq<int>, b: seq<int>, c: seq<int>)
    ensures a + b + c == a + (b + c)
  {
  }
}
