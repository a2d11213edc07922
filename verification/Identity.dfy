/** Model of internal/ledger/key.go and of the identity half of ledger.go: the
    durable key of an event, the fact stored under it, and the event a fact
    replays as. */
module Identity {
  import opened Events
  import opened Wrappers

  const US: char := '\U{1f}'

  predicate IsSlash(c: char) {
    c == '/' || c == '\\'
  }

  predicate HasSlash(s: string) {
    '/' in s || '\\' in s
  }

  /** The last position of a slash or backslash, or -1. */
  function LastSlash(s: string): (i: int)
    ensures -1 <= i < |s|
    ensures i >= 0 ==> IsSlash(s[i])
    ensures forall k :: i < k < |s| ==> !IsSlash(s[k])
  {
    if s == "" then -1
    else if IsSlash(s[|s| - 1]) then |s| - 1
    else LastSlash(s[..|s| - 1])
  }

  /** The first position of c, or -1. */
  function IndexOf(s: string, c: char): (i: int)
    ensures -1 <= i < |s|
    ensures i >= 0 ==> s[i] == c
    ensures forall k :: 0 <= k < (if i < 0 then |s| else i) ==> s[k] != c
  {
    if s == "" then -1
    else if s[0] == c then 0
    else var i := IndexOf(s[1..], c); if i < 0 then -1 else i + 1
  }

  /** The identity suffix of a path-scoped request id. */
  function PathTail(request: string): (tail: Option<string>)
    ensures tail.Some? ==> tail.value != "" && !HasSlash(tail.value)
    ensures tail.Some? ==> |tail.value| < |request| && request[|request| - |tail.value| - 1] == ':'
  {
    var i := LastSlash(request);
    if i < 0 || i == |request| - 1 then None
    else
      var seg := request[i + 1..];
      var colon := IndexOf(seg, ':');
      if colon <= 0 || colon == |seg| - 1 then None
      else
        var tail := seg[colon + 1..];
        if tail == "" || HasSlash(tail) then None else Some(tail)
  }

  /** The request part of the key. */
  function RequestKey(e: UsageEvent): (req: Option<string>) {
    var prefix := e.session + [US];
    var r := if e.session != "" && prefix <= e.request && |e.request| > |prefix| && !HasSlash(e.request)
             then e.request[|prefix|..] else e.request;
    if !HasSlash(r) then Some(r)
    else if e.session == "" then None
    else PathTail(r)
  }

  /** request is a path, a name without colon, a colon and the tail. */
  predicate PathOf(request: string, dir: string, name: string, tail: string) {
    && request == dir + name + [':'] + tail && dir != "" && IsSlash(dir[|dir| - 1])
    && name != "" && ':' !in name && !HasSlash(name) && tail != "" && !HasSlash(tail)
  }

  lemma SlashHas(s: string)
    ensures HasSlash(s) <==> exists k :: 0 <= k < |s| && IsSlash(s[k])
  {
  }

  /** The part behind the last slash holds none. */
  lemma LastPart(request: string)
    ensures !HasSlash(request[LastSlash(request) + 1..])
  {
    var i := LastSlash(request);
    SlashHas(request[i + 1..]);
    hide HasSlash;
    hide LastSlash;
    var seg := request[i + 1..];
    forall k | 0 <= k < |seg| ensures !IsSlash(seg[k]) {
      assert seg[k] == request[i + 1 + k];
    }
  }

  lemma CutAtColon(seg: string)
    requires !HasSlash(seg) && IndexOf(seg, ':') >= 0
    ensures var c := IndexOf(seg, ':');
            seg[c] == ':' && ':' !in seg[..c] && !HasSlash(seg[..c]) && !HasSlash(seg[c + 1..])
  {
  }

  lemma Assemble(request: string, i: nat, c: nat)
    requires i < |request| && i + 1 + c < |request| && request[i + 1 + c] == ':'
    ensures request == request[..i + 1] + request[i + 1..][..c] + [':'] + request[i + 1..][c + 1..]
  {
  }

  lemma TailHasPath(request: string, tail: string) returns (dir: string, name: string)
    requires PathTail(request) == Some(tail)
    ensures PathOf(request, dir, name, tail)
  {
    var i := LastSlash(request);
    var seg := request[i + 1..];
    var colon := IndexOf(seg, ':');
    dir, name := request[..i + 1], seg[..colon];
    LastPart(request);
    CutAtColon(seg);
    Assemble(request, i, colon);
    assert IsSlash(dir[|dir| - 1]) && name != "" && tail == seg[colon + 1..] && tail != "";
    hide PathTail;
    hide HasSlash;
    hide LastSlash;
    hide IndexOf;
  }

  lemma PathHasTail(request: string, dir: string, name: string, tail: string)
    requires PathOf(request, dir, name, tail)
    ensures PathTail(request) == Some(tail)
  {
    var i := LastSlash(request);
    assert i == |dir| - 1 by {
      assert request[|dir| - 1] == dir[|dir| - 1];
      forall k | |dir| <= k < |request| ensures !IsSlash(request[k]) {
        assert request[k] == (name + [':'] + tail)[k - |dir|];
      }
    }
    var seg := request[i + 1..];
    assert seg == name + [':'] + tail;
    assert IndexOf(seg, ':') == |name| by {
      assert seg[|name|] == ':' && forall k :: 0 <= k < |name| ==> seg[k] == name[k];
    }
    assert seg[|name| + 1..] == tail;
  }

  /** The tail is what follows the first colon of a path's last part, if there is something on
      both sides of it. */
  lemma PathTailIff(request: string, tail: string)
    ensures PathTail(request) == Some(tail) <==> exists dir, name :: PathOf(request, dir, name, tail)
  {
    if PathTail(request) == Some(tail) {
      var dir, name := TailHasPath(request, tail);
    }
    if dir, name :| PathOf(request, dir, name, tail) {
      PathHasTail(request, dir, name, tail);
    }
    hide PathTail;
    hide PathOf;
  }

  /** A request without a slash is its own key, or what follows the session it begins with; one with
      a slash counts by its tail, and only within a session. */
  lemma RequestKeyCases(e: UsageEvent)
    ensures var behind := e.session != "" && e.session + [US] <= e.request && |e.request| > |e.session| + 1;
            RequestKey(e)
            == if !HasSlash(e.request) then Some(if behind then e.request[|e.session| + 1..] else e.request)
               else if e.session == "" then None
               else PathTail(e.request)
  {
  }

  predicate Durable(e: UsageEvent) {
    e.derivation != ProviderApi && e.derivation != Retained && !e.skipRequest && e.source != "" && e.request != ""
  }

  function Join(source: string, session: string, req: string): string {
    source + [US] + (session + [US] + req)
  }

  function Key(e: UsageEvent): Option<string> {
    if !Durable(e) then None
    else match RequestKey(e)
         case None => None
         case Some(req) => Some(Join(e.source, e.session, req))
  }

  // ---------- facts ----------

  /** Everything the payload hash covers. The hash itself is taken as injective,
      so comparing hashes is comparing payloads. */
  datatype Payload = Payload(model: string, vendor: string, ts: int, counters: Counters, quality: Quality,
                             derivation: Derivation)

  datatype Fact = Fact(id: string, source: string, session: string, requestKey: string, payload: Payload, skip: bool)

  /** strings.Split. */
  function Split(s: string, sep: char): (parts: seq<string>)
    ensures |parts| >= 1
  {
    if s == "" then [""]
    else
      var rest := Split(s[1..], sep);
      if s[0] == sep then [""] + rest else [[s[0]] + rest[0]] + rest[1..]
  }

  function SplitKey(id: string): Option<(string, string, string)> {
    var parts := Split(id, US);
    if |parts| != 3 || parts[0] == "" || parts[2] == "" then None else Some((parts[0], parts[1], parts[2]))
  }

  function PayloadOf(e: UsageEvent): Payload {
    Payload(e.model, e.vendor, e.ts, e.counters, e.quality, e.derivation)
  }

  function FactFrom(e: UsageEvent, id: string): Fact {
    match SplitKey(id)
    case Some((source, session, req)) => Fact(id, source, session, req, PayloadOf(e), e.skipRequest)
    case None => Fact(id, "", "", "", PayloadOf(e), e.skipRequest)
  }

  /** The event a stored fact is replayed as. */
  function Replay(f: Fact): UsageEvent {
    UsageEvent(f.source, f.payload.vendor, f.session,
               if f.session != "" then f.session + [US] + f.requestKey else f.requestKey,
               f.payload.model, f.payload.ts, f.payload.counters, f.payload.quality, f.payload.derivation, f.skip)
  }

  // ---------- splitting ----------

  function Count(s: string, c: char): nat {
    if s == "" then 0 else (if s[0] == c then 1 else 0) + Count(s[1..], c)
  }

  lemma {:induction false} CountConcat(a: string, b: string, c: char)
    ensures Count(a + b, c) == Count(a, c) + Count(b, c)
  {
    if a == "" {
      assert a + b == b;
    } else {
      assert (a + b)[1..] == a[1..] + b;
      CountConcat(a[1..], b, c);
    }
  }

  lemma {:induction false} CountMember(s: string, c: char)
    ensures Count(s, c) > 0 <==> c in s
  {
    if s != "" {
      CountMember(s[1..], c);
      assert s == [s[0]] + s[1..];
    }
  }

  lemma {:induction false} SplitCount(s: string, sep: char)
    ensures |Split(s, sep)| == 1 + Count(s, sep)
  {
    if s != "" {
      SplitCount(s[1..], sep);
    }
  }

  lemma {:induction false} SplitFirst(a: string, b: string, sep: char)
    requires sep !in a
    ensures Split(a + [sep] + b, sep) == [a] + Split(b, sep)
  {
    var s := a + [sep] + b;
    if a == "" {
      assert s[1..] == b;
    } else {
      assert s[1..] == a[1..] + [sep] + b;
      SplitFirst(a[1..], b, sep);
      assert [s[0]] + a[1..] == a;
    }
  }

  lemma {:induction false} SplitWhole(a: string, sep: char)
    requires sep !in a
    ensures Split(a, sep) == [a]
  {
    if a != "" {
      SplitWhole(a[1..], sep);
      assert [a[0]] + a[1..] == a;
    }
  }

  /** The key splits back into its parts exactly when no part holds the separator. */
  lemma SplitJoin(source: string, session: string, req: string)
    requires source != "" && req != ""
    ensures US !in source && US !in session && US !in req ==>
              SplitKey(Join(source, session, req)) == Some((source, session, req))
    ensures US in source || US in session || US in req ==> SplitKey(Join(source, session, req)) == None
  {
    var tail := session + [US] + req;
    if US !in source && US !in session && US !in req {
      SplitFirst(source, tail, US);
      SplitFirst(session, req, US);
      SplitWhole(req, US);
    } else {
      SplitCount(Join(source, session, req), US);
      CountConcat(source + [US], tail, US);
      CountConcat(source, [US], US);
      CountConcat(session + [US], req, US);
      CountConcat(session, [US], US);
      CountMember(source, US);
      CountMember(session, US);
      CountMember(req, US);
      assert Count([US], US) == 1;
    }
  }

  // ---------- the round trip ----------

  /** When a key can be read back: a property of the event alone. */
  predicate Separable(e: UsageEvent) {
    US !in e.source && US !in e.session && (RequestKey(e).Some? ==> US !in RequestKey(e).value) && !HasSlash(e.session)
  }

  /** A replayed fact has the identity it was stored under exactly when no part of
      the key holds the separator and the session id has no slash. */
  lemma KeyRoundTrip(e: UsageEvent)
    requires Key(e).Some?
    ensures Key(Replay(FactFrom(e, Key(e).value))) == Key(e) <==> Separable(e)
  {
    var req := RequestKey(e).value;
    var f := FactFrom(e, Key(e).value);
    SplitJoin(e.source, e.session, req);
    if US !in e.source && US !in e.session && US !in req {
      ReplayedRequest(Replay(f), e.session, req);
    }
  }

  /** What a fact is replayed with: everything the event said of its usage, and, when no part of
      the key holds the separator, its source and session and the request behind the session. */
  lemma ReplayCarries(e: UsageEvent)
    requires Key(e).Some?
    ensures var out := Replay(FactFrom(e, Key(e).value));
            && out.model == e.model && out.vendor == e.vendor && out.ts == e.ts && out.counters == e.counters
            && out.quality == e.quality && out.derivation == e.derivation && out.skipRequest == e.skipRequest
            && (US !in e.source && US !in e.session && US !in RequestKey(e).value ==>
                  out.source == e.source && out.session == e.session
                  && out.request
                     == (if e.session == "" then RequestKey(e).value else e.session + [US] + RequestKey(e).value))
  {
    SplitJoin(e.source, e.session, RequestKey(e).value);
  }

  /** A session with a slash: the event has a key, its replayed fact has another or none. */
  lemma SlashedSessionIsLost()
    ensures var e := UsageEvent("s", "", "a/b", "r", "", 0, NO_TOKENS, Unset, Local(""), false);
            Key(e).Some? && Key(Replay(FactFrom(e, Key(e).value))) != Key(e)
  {
    var e := UsageEvent("s", "", "a/b", "r", "", 0, NO_TOKENS, Unset, Local(""), false);
    assert e.session[1] == '/';
    assert RequestKey(e) == Some("r");
    KeyRoundTrip(e);
  }

  lemma ReplayedRequest(r: UsageEvent, session: string, req: string)
    requires req != "" && !HasSlash(req) && US !in req
    requires r.session == session && r.request == if session != "" then session + [US] + req else req
    ensures RequestKey(r) == Some(req) <==> !HasSlash(session)
  {
    if session != "" {
      var prefix := session + [US];
      SlashesOfWhole(session, req);
      if HasSlash(session) {
        SlashedSessionTail(session, req);
      } else {
        assert prefix <= r.request && r.request[|prefix|..] == req;
      }
    }
  }

  lemma SlashesOfWhole(session: string, req: string)
    requires !HasSlash(req)
    ensures HasSlash(session + [US] + req) <==> HasSlash(session)
  {
  }

  /** With a slash in the session, the tail that is cut out is never the request. */
  lemma SlashedSessionTail(session: string, req: string)
    requires HasSlash(session) && US !in req
    ensures HasSlash(session + [US] + req) && PathTail(session + [US] + req) != Some(req)
  {
    var whole := session + [US] + req;
    var k := if '/' in session then '/' else '\\';
    assert k in whole;
    assert whole[|whole| - |req| - 1] == US;
  }
}
