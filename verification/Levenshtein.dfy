/** Model of internal/fuzzy/levenshtein.go: the two-row edit distance and the
    closest-name search, against the definition by edit scripts. */
module Levenshtein {
  import Int64

  /** One single-rune edit at a position. */
  datatype Edit = Insert(at: nat, rune: char) | Delete(at: nat) | Replace(at: nat, rune: char)

  predicate Applies(e: Edit, s: string) {
    match e
    case Insert(at, _) => at <= |s|
    case Delete(at) => at < |s|
    case Replace(at, _) => at < |s|
  }

  function Apply(e: Edit, s: string): string
    requires Applies(e, s)
  {
    match e
    case Insert(at, r) => s[..at] + [r] + s[at..]
    case Delete(at) => s[..at] + s[at + 1..]
    case Replace(at, r) => s[at := r]
  }

  /** The script transforms s into t, one edit after another. */
  predicate Transforms(script: seq<Edit>, s: string, t: string) {
    if script == [] then s == t
    else Applies(script[0], s) && Transforms(script[1..], Apply(script[0], s), t)
  }

  function Cost(x: char, y: char): nat {
    if x == y then 0 else 1
  }

  function Min3(a: nat, b: nat, c: nat): nat {
    if a < b then (if a < c then a else c) else (if b < c then b else c)
  }

  /** Cell (i, j) of the full table: the distance of the prefixes a[..i] and b[..j]. */
  function Cell(a: string, b: string, i: nat, j: nat): nat
    requires i <= |a| && j <= |b|
    decreases i + j
  {
    if i == 0 then j
    else if j == 0 then i
    else Min3(Cell(a, b, i - 1, j) + 1, Cell(a, b, i, j - 1) + 1,
              Cell(a, b, i - 1, j - 1) + Cost(a[i - 1], b[j - 1]))
  }

  function Dist(a: string, b: string): nat {
    Cell(a, b, |a|, |b|)
  }

  /** How a cell got its value. */
  datatype Move = Down | Right | Diagonal

  function LastStep(a: string, b: string, i: nat, j: nat): (m: Move)
    requires 0 < i <= |a| && 0 < j <= |b|
    ensures Cell(a, b, i, j) == match m
                                case Down => Cell(a, b, i - 1, j) + 1
                                case Right => Cell(a, b, i, j - 1) + 1
                                case Diagonal => Cell(a, b, i - 1, j - 1) + Cost(a[i - 1], b[j - 1])
  {
    if Cell(a, b, i, j) == Cell(a, b, i - 1, j) + 1 then Down
    else if Cell(a, b, i, j) == Cell(a, b, i, j - 1) + 1 then Right
    else Diagonal
  }

  // ---------- the metric laws ----------

  lemma {:induction false} CellSymmetric(a: string, b: string, i: nat, j: nat)
    requires i <= |a| && j <= |b|
    ensures Cell(b, a, j, i) <= Cell(a, b, i, j)
    decreases i + j
  {
    if i > 0 && j > 0 {
      match LastStep(a, b, i, j)
      case Down => CellSymmetric(a, b, i - 1, j);
      case Right => CellSymmetric(a, b, i, j - 1);
      case Diagonal => CellSymmetric(a, b, i - 1, j - 1);
    }
  }

  lemma {:induction false} CellLengths(a: string, b: string, i: nat, j: nat)
    requires i <= |a| && j <= |b|
    ensures i <= j + Cell(a, b, i, j)
    ensures j <= i + Cell(a, b, i, j)
    ensures Cell(a, b, i, j) <= i + j
    decreases i + j
  {
    if i > 0 && j > 0 {
      CellLengths(a, b, i - 1, j);
      CellLengths(a, b, i, j - 1);
      CellLengths(a, b, i - 1, j - 1);
    }
  }

  lemma {:induction false} CellTriangle(a: string, b: string, c: string, i: nat, j: nat, k: nat)
    requires i <= |a| && j <= |b| && k <= |c|
    ensures Cell(a, c, i, k) <= Cell(a, b, i, j) + Cell(b, c, j, k)
    decreases i + j + k, 1
  {
    if i == 0 {
      CellLengths(b, c, j, k);
    } else if k == 0 {
      CellLengths(a, b, i, j);
    } else if j == 0 {
      CellLengths(a, c, i, k);
    } else {
      // Follow the last step of the cheapest ways from a to b and from b to c.
      var x, y := LastStep(a, b, i, j), LastStep(b, c, j, k);
      if x == Down || y == Right {
        var i', k' := if x == Down then i - 1 else i, if x == Down then k else k - 1;
        CellTriangle(a, b, c, i', j, k');
      } else {
        TriangleJoined(a, b, c, i, j, k);
      }
    }
  }

  lemma {:induction false} TriangleJoined(a: string, b: string, c: string, i: nat, j: nat, k: nat)
    requires 0 < i <= |a| && 0 < j <= |b| && 0 < k <= |c|
    requires LastStep(a, b, i, j) != Down && LastStep(b, c, j, k) != Right
    ensures Cell(a, c, i, k) <= Cell(a, b, i, j) + Cell(b, c, j, k)
    decreases i + j + k, 0
  {
    var x, y := LastStep(a, b, i, j), LastStep(b, c, j, k);
    var i', k' := if x == Right then i else i - 1, if y == Down then k else k - 1;
    CellTriangle(a, b, c, i', j - 1, k');
    JoinSteps(a, b, c, i, j, k, x, y);
  }

  lemma JoinSteps(a: string, b: string, c: string, i: nat, j: nat, k: nat, x: Move, y: Move)
    requires 0 < i <= |a| && 0 < j <= |b| && 0 < k <= |c|
    requires x != Down && y != Right
    ensures var i', k' := if x == Right then i else i - 1, if y == Down then k else k - 1;
            Cell(a, c, i, k) <= Cell(a, c, i', k')
              + (if x == Right then 1 else Cost(a[i - 1], b[j - 1]))
                + (if y == Down then 1 else Cost(b[j - 1], c[k - 1]))
  {
  }

  /** The distance is a metric. */
  lemma DistIsMetric(a: string, b: string, c: string)
    ensures Dist(a, b) == Dist(b, a)
    ensures Dist(a, c) <= Dist(a, b) + Dist(b, c)
    ensures Dist(a, b) == 0 <==> a == b
  {
    CellSymmetric(a, b, |a|, |b|);
    CellSymmetric(b, a, |b|, |a|);
    CellTriangle(a, b, c, |a|, |b|, |c|);
    CellLengths(a, b, |a|, |b|);
    if Dist(a, b) == 0 {
      ZeroMeansSame(a, b, |a|);
      assert a == a[..|a|] == b[..|a|] == b;
    }
    if a == b {
      SamePrefix(a, b, |a|);
    }
  }

  lemma {:induction false} ZeroMeansSame(a: string, b: string, n: nat)
    requires n <= |a| && n <= |b| && Cell(a, b, n, n) == 0
    ensures a[..n] == b[..n]
  {
    if n > 0 {
      CellLengths(a, b, n - 1, n);
      CellLengths(a, b, n, n - 1);
      ZeroMeansSame(a, b, n - 1);
    }
  }

  lemma {:induction false} SamePrefix(a: string, b: string, n: nat)
    requires n <= |a| && n <= |b| && forall k :: 0 <= k < n ==> a[k] == b[k]
    ensures Cell(a, b, n, n) == 0
  {
    if n > 0 {
      SamePrefix(a, b, n - 1);
    }
  }

  // ---------- distance as the length of a shortest edit script ----------

  /** A common tail never raises a cell. */
  lemma {:induction false} SameTail(a: string, b: string, i: nat, j: nat, n: nat)
    requires i + n <= |a| && j + n <= |b|
    requires forall k :: i <= k < i + n ==> a[k] == b[k - i + j]
    ensures Cell(a, b, i + n, j + n) <= Cell(a, b, i, j)
    decreases n
  {
    if n > 0 {
      SameTail(a, b, i, j, n - 1);
    }
  }

  /** Two strings that differ by at most one rune on either side at p. */
  lemma OneRuneApart(s: string, t: string, p: nat, i: nat, j: nat)
    requires p <= i <= p + 1 && p <= j <= p + 1 && i <= |s| && j <= |t|
    requires s[..p] == t[..p] && s[i..] == t[j..]
    ensures Dist(s, t) <= 1
  {
    forall k | 0 <= k < p ensures s[k] == t[k] {
      assert s[k] == s[..p][k] == t[..p][k];
    }
    SamePrefix(s, t, p);
    assert Cell(s, t, i, j) <= 1;
    forall k | i <= k < |s| ensures s[k] == t[k - i + j] {
      assert s[k] == s[i..][k - i] == t[j..][k - i];
    }
    SameTail(s, t, i, j, |s| - i);
  }

  lemma OneEditIsClose(e: Edit, s: string)
    requires Applies(e, s)
    ensures Dist(s, Apply(e, s)) <= 1
  {
    var t, p := Apply(e, s), e.at;
    assert s[..p] == t[..p];
    match e
    case Insert(_, _) =>
      assert s[p..] == t[p + 1..];
      OneRuneApart(s, t, p, p, p + 1);
    case Delete(_) =>
      assert s[p + 1..] == t[p..];
      OneRuneApart(s, t, p, p + 1, p);
    case Replace(_, _) =>
      assert s[p + 1..] == t[p + 1..];
      OneRuneApart(s, t, p, p + 1, p + 1);
  }

  lemma {:induction false} ScriptIsNoShorter(script: seq<Edit>, s: string, t: string)
    requires Transforms(script, s, t)
    ensures Dist(s, t) <= |script|
  {
    if script == [] {
      SamePrefix(s, t, |s|);
    } else {
      var m := Apply(script[0], s);
      OneEditIsClose(script[0], s);
      ScriptIsNoShorter(script[1..], m, t);
      CellTriangle(s, m, t, |s|, |m|, |t|);
    }
  }

  lemma {:induction false} ScriptWithTail(script: seq<Edit>, s: string, t: string, tail: string)
    requires Transforms(script, s, t)
    ensures Transforms(script, s + tail, t + tail)
  {
    if script != [] {
      var e := script[0];
      assert Apply(e, s + tail) == Apply(e, s) + tail;
      ScriptWithTail(script[1..], Apply(e, s), t, tail);
    }
  }

  lemma {:induction false} ScriptsCompose(p: seq<Edit>, q: seq<Edit>, s: string, m: string, t: string)
    requires Transforms(p, s, m) && Transforms(q, m, t)
    ensures Transforms(p + q, s, t)
  {
    if p == [] {
      assert p + q == q;
    } else {
      ScriptsCompose(p[1..], q, Apply(p[0], s), m, t);
      assert (p + q)[1..] == p[1..] + q;
    }
  }

  /** A script of exactly Cell(a, b, i, j) edits, read off the table. */
  lemma {:induction false} ShortestScript(a: string, b: string, i: nat, j: nat) returns (script: seq<Edit>)
    requires i <= |a| && j <= |b|
    ensures |script| == Cell(a, b, i, j)
    ensures Transforms(script, a[..i], b[..j])
    decreases i + j
  {
    if i == 0 && j == 0 {
      script := [];
    } else if j > 0 && Cell(a, b, i, j) == Cell(a, b, i, j - 1) + 1 {
      var rest := ShortestScript(a, b, i, j - 1);
      script := ThenInsert(rest, a[..i], b, j);
    } else if i > 0 && Cell(a, b, i, j) == Cell(a, b, i - 1, j) + 1 {
      var rest := ShortestScript(a, b, i - 1, j);
      script := DeleteThen(rest, a, i, b[..j]);
    } else {
      var rest := ShortestScript(a, b, i - 1, j - 1);
      script := ThenMatch(rest, a, i, b, j);
    }
  }

  lemma ThenInsert(rest: seq<Edit>, s: string, b: string, j: nat) returns (script: seq<Edit>)
    requires 0 < j <= |b| && Transforms(rest, s, b[..j - 1])
    ensures |script| == |rest| + 1 && Transforms(script, s, b[..j])
  {
    var last := [Insert(j - 1, b[j - 1])];
    assert Apply(last[0], b[..j - 1]) == b[..j];
    assert Transforms(last, b[..j - 1], b[..j]);
    ScriptsCompose(rest, last, s, b[..j - 1], b[..j]);
    script := rest + last;
  }

  lemma DeleteThen(rest: seq<Edit>, a: string, i: nat, t: string) returns (script: seq<Edit>)
    requires 0 < i <= |a| && Transforms(rest, a[..i - 1], t)
    ensures |script| == |rest| + 1 && Transforms(script, a[..i], t)
  {
    var first := Delete(i - 1);
    assert Apply(first, a[..i]) == a[..i - 1];
    script := [first] + rest;
  }

  lemma ThenMatch(rest: seq<Edit>, a: string, i: nat, b: string, j: nat) returns (script: seq<Edit>)
    requires 0 < i <= |a| && 0 < j <= |b| && Transforms(rest, a[..i - 1], b[..j - 1])
    ensures |script| == |rest| + Cost(a[i - 1], b[j - 1]) && Transforms(script, a[..i], b[..j])
  {
    var x, y := a[i - 1], b[j - 1];
    assert a[..i] == a[..i - 1] + [x] && b[..j] == b[..j - 1] + [y];
    ScriptWithTail(rest, a[..i - 1], b[..j - 1], [x]);
    if x == y {
      script := rest;
    } else {
      var last := [Replace(j - 1, y)];
      assert Apply(last[0], b[..j - 1] + [x]) == b[..j];
      assert Transforms(last, b[..j - 1] + [x], b[..j]);
      ScriptsCompose(rest, last, a[..i], b[..j - 1] + [x], b[..j]);
      script := rest + last;
    }
  }

  /** Dist is the minimum number of single-rune edits. */
  lemma DistIsMinimumEdits(a: string, b: string)
    ensures exists script :: Transforms(script, a, b) && |script| == Dist(a, b)
    ensures forall script :: Transforms(script, a, b) ==> Dist(a, b) <= |script|
  {
    var best := ShortestScript(a, b, |a|, |b|);
    assert a[..|a|] == a && b[..|b|] == b;
    forall script | Transforms(script, a, b)
      ensures Dist(a, b) <= |script|
    {
      ScriptIsNoShorter(script, a, b);
    }
  }

  // ---------- the program ----------

  method Distance(a: string, b: string) returns (d: nat)
    ensures d == Dist(a, b)
  {
    if |a| == 0 {
      return |b|;
    }
    if |b| == 0 {
      return |a|;
    }
    var n := |b|;
    var prev := new nat[n + 1];
    var cur := new nat[n + 1];
    for j := 0 to n + 1
      invariant forall k :: 0 <= k < j ==> prev[k] == k
    {
      prev[j] := j;
    }
    for i := 1 to |a| + 1
      invariant prev != cur && prev.Length == n + 1 && cur.Length == n + 1
      invariant fresh(prev) && fresh(cur)
      invariant forall k {:trigger prev[k]} :: 0 <= k <= n ==> prev[k] == Cell(a, b, i - 1, k)
    {
      NextRow(a, b, i, prev, cur);
      prev, cur := cur, prev;
    }
    d := prev[n];
  }

  /** The inner loop of Distance: fills row i of the table from row i - 1. */
  method NextRow(a: string, b: string, i: nat, prev: array<nat>, cur: array<nat>)
    requires 0 < i <= |a|
    requires prev != cur && prev.Length == |b| + 1 && cur.Length == |b| + 1
    requires forall k {:trigger prev[k]} :: 0 <= k <= |b| ==> prev[k] == Cell(a, b, i - 1, k)
    modifies cur
    ensures forall k {:trigger cur[k]} :: 0 <= k <= |b| ==> cur[k] == Cell(a, b, i, k)
  {
    cur[0] := i;
    for j := 1 to |b| + 1
      invariant forall k {:trigger cur[k]} :: 0 <= k < j ==> cur[k] == Cell(a, b, i, k)
    {
      var cost := if a[i - 1] == b[j - 1] then 0 else 1;
      var del := prev[j] + 1;
      var ins := cur[j - 1] + 1;
      var sub := prev[j - 1] + cost;
      cur[j] := Min3(del, ins, sub);
    }
  }

  /** r is the earliest among the nearest qualifying names. */
  ghost predicate IsClosest(want: string, names: seq<string>, maxDist: int, r: string) {
    exists k :: 0 <= k < |names| && names[k] == r && r != "" && Dist(want, r) <= maxDist
      && (forall m :: 0 <= m < |names| && names[m] != "" ==> Dist(want, r) <= Dist(want, names[m]))
      && (forall m :: 0 <= m < k && names[m] != "" ==> Dist(want, r) < Dist(want, names[m]))
  }

  /** maxDist + 1 is a machine int: at its largest value the bound wraps to the
      least one, no name is ever better, and the answer is always empty. */
  method Closest(want: string, names: seq<string>, maxDist: int) returns (r: string)
    requires Int64.Fits(maxDist)
    ensures want == "" || maxDist < 0 || maxDist == Int64.MAX ==> r == ""
    ensures want != "" && 0 <= maxDist < Int64.MAX ==>
      if exists k :: 0 <= k < |names| && names[k] != "" && Dist(want, names[k]) <= maxDist
      then IsClosest(want, names, maxDist, r) else r == ""
  {
    if want == "" || maxDist < 0 {
      return "";
    }
    var best, bestD := "", Int64.Wrap(maxDist + 1);
    ghost var at := -1;
    for i := 0 to |names|
      invariant maxDist == Int64.MAX ==> bestD == Int64.MIN && best == ""
      invariant at == -1 ==> best == "" && bestD == Int64.Wrap(maxDist + 1)
      invariant at != -1 ==> 0 <= at < i && names[at] == best && best != "" && bestD == Dist(want, best) <= maxDist
      invariant at != -1 ==> forall m :: 0 <= m < at && names[m] != "" ==> bestD < Dist(want, names[m])
      invariant maxDist < Int64.MAX ==> forall m :: 0 <= m < i && names[m] != "" ==> bestD <= Dist(want, names[m])
    {
      if names[i] == "" {
        continue;
      }
      var d := Distance(want, names[i]);
      if d < bestD {
        bestD := d;
        best := names[i];
        at := i;
      }
    }
    if bestD <= maxDist {
      return best;
    }
    return "";
  }
}
