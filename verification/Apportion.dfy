/** Model of allocateComponents in internal/publicprofile/retain.go: splitting a
    four-component vector over day weights by largest remainder on the
    remaining pool, in 64-bit arithmetic. */
module Apportion {
  import opened Int64
  import opened Wrappers

  /** Miss, cache read, cache create, output. */
  type Vec = v: seq<int> | |v| == 4 witness [0, 0, 0, 0]

  function Sum4(v: Vec): int {
    v[0] + v[1] + v[2] + v[3]
  }

  function Minus(a: Vec, b: Vec): Vec {
    [a[0] - b[0], a[1] - b[1], a[2] - b[2], a[3] - b[3]]
  }

  function Sum(ws: seq<int>): int {
    if ws == [] then 0 else ws[0] + Sum(ws[1..])
  }

  /** Column c of a list of rows, added up. */
  function Column(rows: seq<Vec>, c: int): int
    requires 0 <= c < 4
  {
    if rows == [] then 0 else rows[0][c] + Column(rows[1..], c)
  }

  // ---------- the declarative rule ----------

  function Floor(pool: Vec, w: int, remW: int, c: int): int
    requires 0 <= c < 4 && remW > 0
  {
    pool[c] * w / remW
  }

  function Fraction(pool: Vec, w: int, remW: int, c: int): int
    requires 0 <= c < 4 && remW > 0
  {
    pool[c] * w % remW
  }

  /** c comes before d: greater remainder, or the same and a smaller index. */
  predicate Before(rem: Vec, c: int, d: int)
    requires 0 <= c < 4 && 0 <= d < 4
  {
    rem[c] > rem[d] || (rem[c] == rem[d] && c < d)
  }

  function Fractions(pool: Vec, w: int, remW: int): Vec
    requires remW > 0
  {
    [Fraction(pool, w, remW, 0), Fraction(pool, w, remW, 1), Fraction(pool, w, remW, 2), Fraction(pool, w, remW, 3)]
  }

  /** row is the share w of the pool of size remW: every cell is the floor or the
      ceiling of its exact share, and the extra units went to the largest remainders. */
  ghost predicate LargestRemainder(row: Vec, pool: Vec, w: int, remW: int)
    requires remW > 0
  {
    && Sum4(row) == w
    && (forall c {:trigger row[c]} :: 0 <= c < 4 ==>
          row[c] == Floor(pool, w, remW, c)
            || (row[c] == Floor(pool, w, remW, c) + 1 && Fraction(pool, w, remW, c) > 0))
    && (forall c, d {:trigger row[c], row[d]} :: 0 <= c < 4 && 0 <= d < 4 && c != d
          && row[c] > Floor(pool, w, remW, c) && row[d] == Floor(pool, w, remW, d)
          ==> Before(Fractions(pool, w, remW), c, d))
  }

  /** Day by day: each row is the largest-remainder share of what is left, and the
      last day takes the rest. */
  ghost predicate Apportioned(rows: seq<Vec>, weights: seq<int>, pool: Vec)
    decreases |weights|
  {
    && |rows| == |weights| > 0
    && if |weights| == 1 then rows[0] == pool
       else && Sum(weights) > 0
            && LargestRemainder(rows[0], pool, weights[0], Sum(weights))
            && Apportioned(rows[1..], weights[1..], Minus(pool, rows[0]))
  }

  ghost predicate Positive(weights: seq<int>) {
    forall i :: 0 <= i < |weights| ==> weights[i] > 0
  }

  ghost predicate NonNegative(v: Vec) {
    v[0] >= 0 && v[1] >= 0 && v[2] >= 0 && v[3] >= 0
  }

  /** No product the loop forms leaves int64. The last weight is never multiplied. */
  ghost predicate ProductsFit(weights: seq<int>, comps: Vec) {
    forall i, c :: 0 <= i < |weights| - 1 && 0 <= c < 4 ==> comps[c] * weights[i] <= MAX
  }

  // ---------- the computation, in machine arithmetic ----------

  /** Go wraps the one quotient that leaves int64, of MIN by -1. */
  function Share(p: int, w: int, remW: int): int
    requires remW != 0
  {
    Wrap(TruncDiv(Wrap(p * w), remW))
  }

  function Shares(pool: Vec, w: int, remW: int): Vec
    requires remW != 0
  {
    [Share(pool[0], w, remW), Share(pool[1], w, remW), Share(pool[2], w, remW), Share(pool[3], w, remW)]
  }

  function Rests(pool: Vec, w: int, remW: int): Vec
    requires remW != 0
  {
    [TruncMod(Wrap(pool[0] * w), remW), TruncMod(Wrap(pool[1] * w), remW),
     TruncMod(Wrap(pool[2] * w), remW), TruncMod(Wrap(pool[3] * w), remW)]
  }

  ghost predicate IsBest(rem: Vec, free: set<int>, c: int) {
    c in free && 0 <= c < 4 && forall d :: d in free && d != c && 0 <= d < 4 ==> Before(rem, c, d)
  }

  lemma BestExists(rem: Vec, free: set<int>)
    requires free != {} && free <= {0, 1, 2, 3}
    ensures exists c :: IsBest(rem, free, c)
  {
    var c :| c in free;
    for k := 0 to 4
      invariant c in free
      invariant forall d :: d in free && d != c && 0 <= d < k ==> Before(rem, c, d)
    {
      if k in free && k != c && Before(rem, k, c) {
        c := k;
      }
    }
    assert IsBest(rem, free, c);
  }

  /** Hands out the left-over units, best remainder first; a component whose pool
      is used up is passed over. */
  ghost function Grant(cells: Vec, pool: Vec, rem: Vec, free: set<int>, left: int): (r: (Vec, int))
    requires free <= {0, 1, 2, 3}
    decreases |free|
  {
    if free == {} || left <= 0 then (cells, left)
    else
      BestExists(rem, free);
      var c :| IsBest(rem, free, c);
      if cells[c] >= pool[c] then Grant(cells, pool, rem, free - {c}, left)
      else Grant(cells[c := cells[c] + 1], pool, rem, free - {c}, left - 1)
  }

  function WrapMinus(a: Vec, b: Vec): Vec {
    [Wrap(a[0] - b[0]), Wrap(a[1] - b[1]), Wrap(a[2] - b[2]), Wrap(a[3] - b[3])]
  }

  /** One day's row, or None when the pool cannot fill it. */
  ghost function Row(pool: Vec, w: int, remW: int): Option<Vec>
    requires remW != 0
  {
    var q := Shares(pool, w, remW);
    var (row, left) := Grant(q, pool, Rests(pool, w, remW), {0, 1, 2, 3}, Wrap(w - Wrap(Sum4(q))));
    if left != 0 || !NonNegative(WrapMinus(pool, row)) then None else Some(row)
  }

  /** How a split ends. The program has no answer for a divisor of zero: it stops. */
  datatype Split<T> = Answer(value: T) | Refused | ZeroDivisor

  function Prepend(rows: seq<Vec>, rest: Split<seq<Vec>>): Split<seq<Vec>> {
    match rest
    case Answer(more) => Answer(rows + more)
    case _ => rest
  }

  /** Day by day; what is left of the weights is kept in a register, so it wraps. */
  ghost function Rows(weights: seq<int>, pool: Vec): Split<seq<Vec>>
    requires |weights| > 0
    decreases |weights|
  {
    var remW := Wrap(Sum(weights));
    if |weights| == 1 then
      if Wrap(Sum4(pool)) == weights[0] then Answer([pool]) else Refused
    else if remW == 0 then ZeroDivisor
    else
      match Row(pool, weights[0], remW)
      case None => Refused
      case Some(row) => Prepend([row], Rows(weights[1..], WrapMinus(pool, row)))
  }

  lemma {:induction false} SumPositive(weights: seq<int>)
    requires Positive(weights) && |weights| > 0
    ensures Sum(weights) >= weights[0] && (|weights| > 1 ==> Sum(weights) > weights[0])
  {
    if |weights| > 1 {
      SumPositive(weights[1..]);
    }
  }

  /** What allocateComponents does with its input. */
  ghost function Allocate(weights: seq<int>, comps: Vec): Split<seq<Vec>> {
    if |weights| == 0 || !Positive(weights) || Wrap(Sum(weights)) != Wrap(Sum4(comps)) then Refused
    else Rows(weights, comps)
  }

  // ---------- the computation meets the rule ----------

  lemma QuotientFacts(p: int, w: int, remW: int)
    requires p >= 0 && 0 < w < remW && p * w <= MAX
    ensures Wrap(p * w) == p * w >= 0 && p <= MAX
    ensures var q, r := p * w / remW, p * w % remW;
            0 <= q <= p && 0 <= r < remW && p * w == q * remW + r && (r > 0 ==> q < p)
  {
    assert p <= p * w;
    var q, r := p * w / remW, p * w % remW;
    assert p * w >= 0;
    assert p * w == q * remW + r;
    assert p * w <= p * remW;
    assert (q - p) * remW <= -r;
    assert q <= p;
  }

  function FreeSum(rem: Vec, free: set<int>): int {
    (if 0 in free then rem[0] else 0) + (if 1 in free then rem[1] else 0)
    + (if 2 in free then rem[2] else 0) + (if 3 in free then rem[3] else 0)
  }

  /** row adds `left` single units to cells, to the free components of largest remainder. */
  ghost predicate Granted(row: Vec, cells: Vec, rem: Vec, free: set<int>, left: int) {
    && Sum4(row) == Sum4(cells) + left
    && (forall c {:trigger row[c]} :: 0 <= c < 4 ==>
          row[c] == cells[c] || (c in free && row[c] == cells[c] + 1 && rem[c] > 0))
    && (forall c, d {:trigger row[c], row[d]} :: c in free && d in free && 0 <= c < 4 && 0 <= d < 4 && c != d
          && row[c] > cells[c] && row[d] == cells[d]
          ==> Before(rem, c, d))
  }

  /** Remainders below remW that together exceed left - 1 of it. */
  ghost predicate Enough(rem: Vec, free: set<int>, left: int, remW: int) {
    && remW > 0
    && (forall c {:trigger rem[c]} :: c in free && 0 <= c < 4 ==> 0 <= rem[c] < remW)
    && (left > 0 ==> FreeSum(rem, free) > (left - 1) * remW)
  }

  lemma EnoughStep(rem: Vec, free: set<int>, c: int, left: int, remW: int)
    requires Enough(rem, free, left, remW) && IsBest(rem, free, c) && left > 0
    ensures rem[c] > 0 && Enough(rem, free - {c}, left - 1, remW)
  {
    assert (left - 1) * remW >= 0;
    assert (left - 1) * remW == (left - 2) * remW + remW;
    assert FreeSum(rem, free - {c}) == FreeSum(rem, free) - rem[c];
    assert FreeSum(rem, free) > 0;
  }

  lemma GrantedStep(row: Vec, cells: Vec, rem: Vec, free: set<int>, c: int, left: int)
    requires IsBest(rem, free, c) && rem[c] > 0
    requires Granted(row, cells[c := cells[c] + 1], rem, free - {c}, left - 1)
    ensures Granted(row, cells, rem, free, left)
  {
  }

  lemma {:induction false} GrantGives(cells: Vec, pool: Vec, rem: Vec, free: set<int>, left: int, remW: int)
    requires free <= {0, 1, 2, 3} && left >= 0 && Enough(rem, free, left, remW)
    requires forall c {:trigger rem[c]} :: c in free && 0 <= c < 4 && rem[c] > 0 ==> cells[c] < pool[c]
    ensures Grant(cells, pool, rem, free, left).1 == 0
    ensures Granted(Grant(cells, pool, rem, free, left).0, cells, rem, free, left)
    decreases |free|
  {
    if left > 0 {
      assert free != {} by {
        assert (left - 1) * remW >= 0;
      }
      BestExists(rem, free);
      var c :| IsBest(rem, free, c);
      EnoughStep(rem, free, c, left, remW);
      var cells' := cells[c := cells[c] + 1];
      GrantGives(cells', pool, rem, free - {c}, left - 1, remW);
      GrantedStep(Grant(cells', pool, rem, free - {c}, left - 1).0, cells, rem, free, c, left);
    }
  }

  /** The units left after the floors are exactly the remainders over remW. */
  lemma LeftOver(pool: Vec, w: int, remW: int, q: Vec, r: Vec)
    requires Sum4(pool) == remW
    requires forall c {:trigger pool[c]} :: 0 <= c < 4 ==> pool[c] * w == q[c] * remW + r[c]
    ensures (w - Sum4(q)) * remW == Sum4(r)
  {
    calc {
      w * remW;
      w * (pool[0] + pool[1] + pool[2] + pool[3]);
      pool[0] * w + pool[1] * w + pool[2] * w + pool[3] * w;
      q[0] * remW + q[1] * remW + q[2] * remW + q[3] * remW + Sum4(r);
      Sum4(q) * remW + Sum4(r);
    }
  }

  lemma SharesAreFloors(pool: Vec, w: int, remW: int)
    requires NonNegative(pool) && 0 < w < remW
    requires forall c {:trigger pool[c]} :: 0 <= c < 4 ==> pool[c] * w <= MAX
    ensures Rests(pool, w, remW) == Fractions(pool, w, remW)
    ensures var q, r := Shares(pool, w, remW), Rests(pool, w, remW);
            forall c {:trigger q[c]} {:trigger r[c]} {:trigger pool[c]} :: 0 <= c < 4 ==>
              && q[c] == Floor(pool, w, remW, c) && 0 <= q[c] <= pool[c] && 0 <= r[c] < remW
              && pool[c] * w == q[c] * remW + r[c] && (r[c] > 0 ==> q[c] < pool[c])
  {
    QuotientFacts(pool[0], w, remW);
    QuotientFacts(pool[1], w, remW);
    QuotientFacts(pool[2], w, remW);
    QuotientFacts(pool[3], w, remW);
  }

  lemma RowMeetsRule(pool: Vec, w: int, remW: int)
    requires NonNegative(pool) && Sum4(pool) == remW <= MAX && 0 < w < remW
    requires forall c {:trigger pool[c]} :: 0 <= c < 4 ==> pool[c] * w <= MAX
    ensures Row(pool, w, remW).Some?
    ensures var row := Row(pool, w, remW).value;
            && LargestRemainder(row, pool, w, remW) && NonNegative(row)
            && WrapMinus(pool, row) == Minus(pool, row) && NonNegative(Minus(pool, row))
  {
    var q, rem := Shares(pool, w, remW), Rests(pool, w, remW);
    SharesAreFloors(pool, w, remW);
    LeftOver(pool, w, remW, q, rem);
    var left := w - Sum4(q);
    var free := {0, 1, 2, 3};
    assert FreeSum(rem, free) == Sum4(rem);
    LeftIsSmall(left, remW, Sum4(rem));
    assert 0 <= Sum4(q) <= MAX;
    GrantGives(q, pool, rem, free, left, remW);
    assert FloorsOf(q, pool, w, remW);
    GrantedIsLargest(Grant(q, pool, rem, free, left).0, q, pool, w, remW, left);
    RowIs(pool, w, remW, Grant(q, pool, rem, free, left).0);
  }

  lemma RowIs(pool: Vec, w: int, remW: int, row: Vec)
    requires remW > 0 && 0 <= w <= MAX
    ensures var q := Shares(pool, w, remW);
            (0 <= Sum4(q) <= MAX && Grant(q, pool, Rests(pool, w, remW), {0, 1, 2, 3}, w - Sum4(q)) == (row, 0)
             && NonNegative(WrapMinus(pool, row))) ==> Row(pool, w, remW) == Some(row)
  {
  }

  lemma GrantedIsLargest(row: Vec, q: Vec, pool: Vec, w: int, remW: int, left: int)
    requires remW > 0 && left == w - Sum4(q) && FloorsOf(q, pool, w, remW)
    ensures Granted(row, q, Fractions(pool, w, remW), {0, 1, 2, 3}, left) ==>
              && LargestRemainder(row, pool, w, remW)
              && NonNegative(row) && NonNegative(Minus(pool, row)) && WrapMinus(pool, row) == Minus(pool, row)
  {
    var rem := Fractions(pool, w, remW);
    assert forall c {:trigger rem[c]} :: 0 <= c < 4 ==> rem[c] == Fraction(pool, w, remW, c);
    if Granted(row, q, rem, {0, 1, 2, 3}, left) {
      forall c {:trigger row[c]} | 0 <= c < 4
        ensures q[c] <= row[c] <= pool[c]
      {
      }
      assert row[0] <= pool[0] && row[1] <= pool[1] && row[2] <= pool[2] && row[3] <= pool[3];
    }
  }

  /** q are the floors of the shares, each inside the pool, and short of it where a
      remainder is left. */
  ghost predicate FloorsOf(q: Vec, pool: Vec, w: int, remW: int)
    requires remW > 0
  {
    && (forall c {:trigger q[c]} :: 0 <= c < 4 ==> q[c] == Floor(pool, w, remW, c) && 0 <= q[c] <= pool[c] <= MAX)
    && (forall c {:trigger q[c]} :: 0 <= c < 4 && Fraction(pool, w, remW, c) > 0 ==> q[c] < pool[c])
  }

  lemma LeftIsSmall(left: int, remW: int, rests: int)
    requires remW > 0 && left * remW == rests && 0 <= rests < 4 * remW
    ensures 0 <= left < 4 && (left > 0 ==> rests > (left - 1) * remW)
  {
    assert (left - 4) * remW < 0;
    assert (left + 1) * remW > 0;
    assert left - 4 < 0 && left + 1 > 0;
  }

  // ---------- main results ----------

  /** The split never fails on positive weights that add up to the vector, as long
      as no product leaves int64, and it is then the largest-remainder split. */
  lemma {:induction false} AllocateNeverFails(weights: seq<int>, comps: Vec)
    requires |weights| > 0 && Positive(weights) && NonNegative(comps)
    requires Sum(weights) == Sum4(comps) <= MAX && ProductsFit(weights, comps)
    ensures Allocate(weights, comps).Answer? && Apportioned(Allocate(weights, comps).value, weights, comps)
    decreases |weights|
  {
    if |weights| > 1 {
      var w := weights[0];
      SumPositive(weights);
      assert forall c {:trigger comps[c]} :: 0 <= c < 4 ==> comps[c] * weights[0] <= MAX;
      RowMeetsRule(comps, w, Sum(weights));
      var row := Row(comps, w, Sum(weights)).value;
      var rest := weights[1..];
      PoolShrinks(weights, comps, row);
      RestIsInside(weights, comps, row);
      AllocateNeverFails(rest, Minus(comps, row));
      var more := Rows(rest, Minus(comps, row)).value;
      assert ([row] + more)[1..] == more;
    }
  }

  /** The remaining weights and the remaining pool still agree, inside int64. */
  lemma RestIsInside(weights: seq<int>, comps: Vec, row: Vec)
    requires |weights| > 1 && Positive(weights) && Sum(weights) == Sum4(comps) <= MAX && Sum4(row) == weights[0]
    ensures 0 < Sum(weights[1..]) == Sum4(Minus(comps, row)) <= MAX && Positive(weights[1..])
  {
    SumPositive(weights);
  }

  lemma PoolShrinks(weights: seq<int>, comps: Vec, row: Vec)
    requires |weights| > 1 && Positive(weights) && NonNegative(row) && NonNegative(Minus(comps, row))
    requires ProductsFit(weights, comps)
    ensures ProductsFit(weights[1..], Minus(comps, row))
  {
    forall i, c | 0 <= i < |weights[1..]| - 1 && 0 <= c < 4
      ensures Minus(comps, row)[c] * weights[1..][i] <= MAX
    {
      var w := weights[1..][i];
      assert w == weights[i + 1] && comps[c] * weights[i + 1] <= MAX;
      assert 0 <= Minus(comps, row)[c] <= comps[c];
      Scaled(Minus(comps, row)[c], comps[c], w);
    }
  }

  lemma Scaled(a: int, b: int, w: int)
    requires a <= b && w > 0
    ensures a * w <= b * w
  {
  }

  /** A total t with t * (t - 1) inside int64 keeps every product inside: the last
      day is never multiplied, so the others weigh at most t - 1. */
  lemma TotalSuffices(weights: seq<int>, comps: Vec)
    requires Positive(weights) && NonNegative(comps) && Sum(weights) == Sum4(comps)
    requires Sum(weights) * (Sum(weights) - 1) <= MAX
    ensures ProductsFit(weights, comps)
  {
    var t := Sum(weights);
    forall i, c | 0 <= i < |weights| - 1 && 0 <= c < 4
      ensures comps[c] * weights[i] <= MAX
    {
      NotTheWhole(weights, i);
      assert 0 <= comps[c] <= t && 0 < weights[i] <= t - 1;
      Products(comps[c], weights[i], t);
    }
  }

  lemma Products(p: int, w: int, t: int)
    requires 0 <= p <= t && 0 < w <= t - 1
    ensures p * w <= t * (t - 1)
  {
    assert p * w <= t * w <= t * (t - 1);
  }

  lemma {:induction false} NotTheWhole(weights: seq<int>, i: int)
    requires Positive(weights) && 0 <= i < |weights| - 1
    ensures weights[i] < Sum(weights)
  {
    SumPositive(weights);
    if i > 0 {
      NotTheWhole(weights[1..], i - 1);
    }
  }

  lemma MulBound(a: int, b: int, t: int)
    requires 0 <= a <= t && 0 <= b <= t
    ensures a * b <= t * t
  {
  }

  /** Nothing is lost or invented: rows add up to the weights, columns to the vector. */
  lemma {:induction false} Conserves(rows: seq<Vec>, weights: seq<int>, comps: Vec)
    requires Apportioned(rows, weights, comps) && Positive(weights) && NonNegative(comps)
    requires Sum(weights) == Sum4(comps)
    ensures forall i :: 0 <= i < |rows| ==> Sum4(rows[i]) == weights[i] && NonNegative(rows[i])
    ensures forall c :: 0 <= c < 4 ==> Column(rows, c) == comps[c]
    decreases |weights|
  {
    if |weights| == 1 {
      assert forall c :: 0 <= c < 4 ==> Column(rows[1..], c) == 0;
    } else {
      SumPositive(weights);
      RuleStaysInPool(rows[0], comps, weights[0], Sum(weights), weights);
      Conserves(rows[1..], weights[1..], Minus(comps, rows[0]));
      forall i | 0 <= i < |rows| ensures Sum4(rows[i]) == weights[i] && NonNegative(rows[i]) {
        if i > 0 {
          assert rows[i] == rows[1..][i - 1] && weights[i] == weights[1..][i - 1];
        }
      }
      assert forall c :: 0 <= c < 4 ==> Column(rows, c) == rows[0][c] + Column(rows[1..], c);
    }
  }

  lemma RuleStaysInPool(row: Vec, pool: Vec, w: int, remW: int, weights: seq<int>)
    requires |weights| > 1 && Positive(weights) && w == weights[0] && remW == Sum(weights) > 0
    requires NonNegative(pool) && LargestRemainder(row, pool, w, remW)
    ensures NonNegative(row) && NonNegative(Minus(pool, row))
  {
    SumPositive(weights);
    forall c {:trigger row[c]} | 0 <= c < 4 ensures 0 <= row[c] <= pool[c] {
      FloorInPool(pool[c], w, remW);
    }
    assert row[0] <= pool[0] && row[1] <= pool[1] && row[2] <= pool[2] && row[3] <= pool[3];
  }

  lemma FloorInPool(p: int, w: int, remW: int)
    requires p >= 0 && 0 < w < remW
    ensures 0 <= p * w / remW <= p && (p * w % remW > 0 ==> p * w / remW < p)
  {
    var q, r := p * w / remW, p * w % remW;
    assert p * w >= 0;
    assert p * w == q * remW + r;
    assert p * w <= p * remW;
    assert (q - p) * remW <= -r;
  }

  /** The rule leaves no choice: two splits of the same input are the same split. */
  lemma {:induction false} SplitIsUnique(rows: seq<Vec>, other: seq<Vec>, weights: seq<int>, comps: Vec)
    ensures Apportioned(rows, weights, comps) && Apportioned(other, weights, comps) ==> rows == other
    decreases |weights|
  {
    if |weights| > 1 && Apportioned(rows, weights, comps) && Apportioned(other, weights, comps) {
      RowIsUnique(rows[0], other[0], comps, weights[0], Sum(weights));
      SplitIsUnique(rows[1..], other[1..], weights[1..], Minus(comps, rows[0]));
      assert rows == [rows[0]] + rows[1..] && other == [other[0]] + other[1..];
    }
  }

  lemma RowIsUnique(row: Vec, other: Vec, pool: Vec, w: int, remW: int)
    requires remW > 0
    ensures LargestRemainder(row, pool, w, remW) && LargestRemainder(other, pool, w, remW) ==> row == other
  {
    forall c, d | 0 <= c < 4 && 0 <= d < 4 {
      NoTrade(row, other, pool, w, remW, c, d);
    }
  }

  /** No unit can move from d to c between two rows that both meet the rule. */
  lemma NoTrade(row: Vec, other: Vec, pool: Vec, w: int, remW: int, c: int, d: int)
    requires remW > 0 && 0 <= c < 4 && 0 <= d < 4
    ensures LargestRemainder(row, pool, w, remW) && LargestRemainder(other, pool, w, remW) ==>
              row[c] <= other[c] || row[d] >= other[d]
  {
  }

  // ---------- conservation without a bound on the products ----------

  /** A wrapped product over the remaining total is never far from zero. */
  const SMALL: int := 0x1_0000_0000

  lemma ShareIsSmall(p: int, w: int, remW: int)
    requires 0 <= p <= remW <= MAX && 0 < w < remW
    ensures -SMALL <= Share(p, w, remW) <= SMALL
    ensures Share(p, w, remW) == TruncDiv(Wrap(p * w), remW)
  {
    if remW < 0x8000_0000 {
      MulBound(p, w, 0x8000_0000);
      QuotientFacts(p, w, remW);
    } else {
      var product := Wrap(p * w);
      QuotientBound(if product >= 0 then product else -product, remW, SMALL);
    }
  }

  lemma QuotientBound(a: int, d: int, k: int)
    requires d > 0 && 0 <= a <= k * d
    ensures 0 <= a / d <= k
  {
    var q := a / d;
    assert q * d <= a;
    assert (q - k) * d <= 0;
  }

  /** Granting moves units from the left-over into the cells, at most one each. */
  lemma {:induction false} GrantMoves(cells: Vec, pool: Vec, rem: Vec, free: set<int>, left: int)
    requires free <= {0, 1, 2, 3}
    ensures var r := Grant(cells, pool, rem, free, left);
            && Sum4(r.0) + r.1 == Sum4(cells) + left
            && forall c :: 0 <= c < 4 ==> cells[c] <= r.0[c] <= cells[c] + if c in free then 1 else 0
    decreases |free|
  {
    if free != {} && left > 0 {
      BestExists(rem, free);
      var c :| IsBest(rem, free, c);
      if cells[c] >= pool[c] {
        GrantMoves(cells, pool, rem, free - {c}, left);
      } else {
        var cells' := cells[c := cells[c] + 1];
        GrantMoves(cells', pool, rem, free - {c}, left - 1);
        assert Sum4(cells') == Sum4(cells) + 1;
      }
    }
  }

  /** The cells stay inside int64 by a wide margin. */
  ghost predicate Modest(row: Vec) {
    forall c :: 0 <= c < 4 ==> -SMALL <= row[c] <= SMALL + 1
  }

  ghost predicate Near(q: Vec) {
    forall c :: 0 <= c < 4 ==> -SMALL <= q[c] <= SMALL
  }

  lemma SharesAreSmall(pool: Vec, w: int, remW: int)
    requires NonNegative(pool) && Sum4(pool) == remW <= MAX && 0 < w < remW
    ensures Near(Shares(pool, w, remW))
  {
    ShareIsSmall(pool[0], w, remW);
    ShareIsSmall(pool[1], w, remW);
    ShareIsSmall(pool[2], w, remW);
    ShareIsSmall(pool[3], w, remW);
  }

  /** A left-over that is used up exactly was the exact left-over. */
  lemma LeftIsExact(q: Vec, w: int)
    requires Near(q) && 0 < w <= MAX
    ensures var left := Wrap(w - Wrap(Sum4(q))); left >= 0 ==> left == w - Sum4(q)
  {
  }

  lemma RowConserves(pool: Vec, w: int, remW: int)
    requires NonNegative(pool) && Sum4(pool) == remW <= MAX && 0 < w < remW
    ensures Row(pool, w, remW).Some? ==>
              var row := Row(pool, w, remW).value;
              Sum4(row) == w && Modest(row) && WrapMinus(pool, row) == Minus(pool, row) && NonNegative(Minus(pool, row))
  {
    hide Share;
    SharesAreSmall(pool, w, remW);
    if Row(pool, w, remW).Some? {
      GrantedRow(Shares(pool, w, remW), pool, Rests(pool, w, remW), w);
    }
  }

  lemma GrantedRow(q: Vec, pool: Vec, rem: Vec, w: int)
    requires NonNegative(pool) && Sum4(pool) <= MAX && Near(q) && 0 < w <= MAX
    requires Grant(q, pool, rem, {0, 1, 2, 3}, Wrap(w - Wrap(Sum4(q)))).1 == 0
    requires NonNegative(WrapMinus(pool, Grant(q, pool, rem, {0, 1, 2, 3}, Wrap(w - Wrap(Sum4(q)))).0))
    ensures var row := Grant(q, pool, rem, {0, 1, 2, 3}, Wrap(w - Wrap(Sum4(q)))).0;
            Sum4(row) == w && Modest(row) && WrapMinus(pool, row) == Minus(pool, row) && NonNegative(Minus(pool, row))
  {
    LeftIsExact(q, w);
    GrantedConserves(q, pool, rem, Wrap(w - Wrap(Sum4(q))), w);
  }

  lemma GrantedConserves(q: Vec, pool: Vec, rem: Vec, left: int, w: int)
    requires Near(q) && (left >= 0 ==> left == w - Sum4(q)) && Grant(q, pool, rem, {0, 1, 2, 3}, left).1 == 0
    ensures var row := Grant(q, pool, rem, {0, 1, 2, 3}, left).0; Sum4(row) == w && Modest(row)
  {
    GrantMoves(q, pool, rem, {0, 1, 2, 3}, left);
  }

  /** Rows add up to the weights, columns to the vector, and every cell is an int64. */
  ghost predicate Conserved(rows: seq<Vec>, weights: seq<int>, comps: Vec) {
    && |rows| == |weights|
    && (forall i :: 0 <= i < |rows| ==> Sum4(rows[i]) == weights[i] && InInt64(rows[i]))
    && forall c :: 0 <= c < 4 ==> Column(rows, c) == comps[c]
  }

  ghost predicate InInt64(v: Vec) {
    forall c :: 0 <= c < 4 ==> Fits(v[c])
  }

  /** The same in registers: rows add up to the weights and columns to the vector,
      each up to whole laps. */
  ghost predicate Agrees(rows: seq<Vec>, weights: seq<int>, comps: Vec) {
    && |rows| == |weights|
    && (forall i :: 0 <= i < |rows| ==> Wrap(Sum4(rows[i])) == Wrap(weights[i]))
    && forall c :: 0 <= c < 4 ==> Wrap(Column(rows, c)) == Wrap(comps[c])
  }

  /** Every split that is answered loses and invents nothing: in whole numbers, even with
      products that left int64, when the two sums are inside it; and otherwise in the
      registers' own arithmetic. */
  lemma SuccessConserves(weights: seq<int>, comps: Vec)
    requires Allocate(weights, comps).Answer?
    ensures Agrees(Allocate(weights, comps).value, weights, comps)
    ensures NonNegative(comps) && Sum4(comps) <= MAX && Sum(weights) <= MAX ==>
              Conserved(Allocate(weights, comps).value, weights, comps)
  {
    RowsAgree(weights, comps);
    if NonNegative(comps) && Sum4(comps) <= MAX && Sum(weights) <= MAX {
      SumPositive(weights);
      RowsConserve(weights, comps);
    }
  }

  lemma {:induction false} RowsConserve(weights: seq<int>, comps: Vec)
    requires |weights| > 0 && Positive(weights) && NonNegative(comps) && Sum(weights) == Sum4(comps) <= MAX
    requires Rows(weights, comps).Answer?
    ensures Conserved(Rows(weights, comps).value, weights, comps)
    decreases |weights|
  {
    if |weights| == 1 {
      OnlyRow(comps, weights);
    } else {
      SumPositive(weights);
      var row := FirstRow(weights, comps);
      RowConserves(comps, weights[0], Sum(weights));
      RestIsInside(weights, comps, row);
      RowsConserve(weights[1..], Minus(comps, row));
      OneMoreRow(row, Rows(weights[1..], Minus(comps, row)).value, weights, comps);
    }
  }

  /** An answer for several days begins with the first day's row. */
  lemma FirstRow(weights: seq<int>, pool: Vec) returns (row: Vec)
    requires |weights| > 1 && Rows(weights, pool).Answer?
    ensures Wrap(Sum(weights)) != 0 && Row(pool, weights[0], Wrap(Sum(weights))) == Some(row)
    ensures Rows(weights[1..], WrapMinus(pool, row)).Answer?
    ensures Rows(weights, pool).value == [row] + Rows(weights[1..], WrapMinus(pool, row)).value
  {
    row := Row(pool, weights[0], Wrap(Sum(weights))).value;
  }

  lemma OnlyRow(comps: Vec, weights: seq<int>)
    requires |weights| == 1 && NonNegative(comps) && Sum4(comps) == weights[0] <= MAX
    ensures Conserved([comps], weights, comps)
  {
    forall c | 0 <= c < 4 ensures Column([comps], c) == comps[c] {
      assert Column([comps][1..], c) == 0;
    }
  }

  lemma OneMoreRow(row: Vec, rest: seq<Vec>, weights: seq<int>, comps: Vec)
    requires |weights| > 1 && Sum4(row) == weights[0] && InInt64(row)
    requires Conserved(rest, weights[1..], Minus(comps, row))
    ensures Conserved([row] + rest, weights, comps)
  {
    var rows := [row] + rest;
    assert rows[1..] == rest;
    forall i | 0 <= i < |rows| ensures Sum4(rows[i]) == weights[i] && InInt64(rows[i]) {
      assert i > 0 ==> rows[i] == rest[i - 1] && weights[i] == weights[1..][i - 1];
    }
    forall c | 0 <= c < 4 ensures Column(rows, c) == comps[c] {
      assert Column(rows, c) == row[c] + Column(rest, c);
    }
  }

  lemma {:induction false} RowsAgree(weights: seq<int>, pool: Vec)
    requires |weights| > 0 && Rows(weights, pool).Answer?
    ensures Agrees(Rows(weights, pool).value, weights, pool)
    decreases |weights|
  {
    if |weights| == 1 {
      assert forall c :: 0 <= c < 4 ==> Column([pool][1..], c) == 0;
    } else {
      var row := FirstRow(weights, pool);
      RowAgrees(pool, weights[0], Wrap(Sum(weights)));
      var rest := Rows(weights[1..], WrapMinus(pool, row)).value;
      RowsAgree(weights[1..], WrapMinus(pool, row));
      RowComesFirst(row, rest, weights, pool);
    }
  }

  lemma RowComesFirst(row: Vec, rest: seq<Vec>, weights: seq<int>, pool: Vec)
    requires |weights| > 1 && Wrap(Sum4(row)) == Wrap(weights[0])
    requires Agrees(rest, weights[1..], WrapMinus(pool, row))
    ensures Agrees([row] + rest, weights, pool)
  {
    var rows := [row] + rest;
    assert rows[1..] == rest;
    forall i | 0 <= i < |rows| ensures Wrap(Sum4(rows[i])) == Wrap(weights[i]) {
      assert i > 0 ==> rows[i] == rest[i - 1] && weights[i] == weights[1..][i - 1];
    }
    forall c | 0 <= c < 4 ensures Wrap(Column(rows, c)) == Wrap(pool[c]) {
      WrapAddsBack(pool[c], row[c], Column(rest, c));
    }
  }

  /** Taking a cell off in the register and adding it back gives the same register. */
  lemma WrapAddsBack(pool: int, cell: int, rest: int)
    requires Wrap(rest) == Wrap(Wrap(pool - cell))
    ensures Wrap(cell + rest) == Wrap(pool)
  {
    WrapAdds(rest, cell);
    WrapAdds(pool - cell, cell);
  }

  /** Every cell that is answered is an int64. */
  lemma {:induction false} RowsFit(weights: seq<int>, pool: Vec)
    requires |weights| > 0 && Rows(weights, pool).Answer? && InInt64(pool)
    ensures forall i :: 0 <= i < |Rows(weights, pool).value| ==> InInt64(Rows(weights, pool).value[i])
    decreases |weights|
  {
    if |weights| > 1 {
      var row := FirstRow(weights, pool);
      RowFits(pool, weights[0], Wrap(Sum(weights)));
      RowsFit(weights[1..], WrapMinus(pool, row));
    }
  }

  lemma RowFits(pool: Vec, w: int, remW: int)
    requires remW != 0 && InInt64(pool) && Row(pool, w, remW).Some?
    ensures InInt64(Row(pool, w, remW).value)
  {
    var q := Shares(pool, w, remW);
    GrantFits(q, pool, Rests(pool, w, remW), {0, 1, 2, 3}, Wrap(w - Wrap(Sum4(q))));
  }

  lemma {:induction false} GrantFits(cells: Vec, pool: Vec, rem: Vec, free: set<int>, left: int)
    requires free <= {0, 1, 2, 3} && InInt64(cells) && InInt64(pool)
    ensures InInt64(Grant(cells, pool, rem, free, left).0)
    decreases |free|
  {
    if free != {} && left > 0 {
      BestExists(rem, free);
      var c :| IsBest(rem, free, c);
      if cells[c] >= pool[c] {
        GrantFits(cells, pool, rem, free - {c}, left);
      } else {
        GrantFits(cells[c := cells[c] + 1], pool, rem, free - {c}, left - 1);
      }
    }
  }

  lemma RowAgrees(pool: Vec, w: int, remW: int)
    requires remW != 0 && Row(pool, w, remW).Some?
    ensures Wrap(Sum4(Row(pool, w, remW).value)) == Wrap(w)
  {
    var q := Shares(pool, w, remW);
    var left := Wrap(w - Wrap(Sum4(q)));
    GrantMoves(q, pool, Rests(pool, w, remW), {0, 1, 2, 3}, left);
    LeftAddsBack(w, Sum4(q));
  }

  lemma LeftAddsBack(w: int, used: int)
    ensures Wrap(used + Wrap(w - Wrap(used))) == Wrap(w)
  {
    WrapAdds(w - Wrap(used), used);
    WrapAdds(used, w - Wrap(used));
    WrapAdds(used, w - used);
  }

  /** A vector that sums past int64 is answered although its one day holds less. */
  lemma WrappedVectorIsAnswered()
    ensures Allocate([5], [MAX, MAX, 7, 0]) == Answer([[MAX, MAX, 7, 0]])
    ensures Sum4([MAX, MAX, 7, 0]) == 5 + SPAN
  {
    assert [5][1..] == [];
  }

  // ---------- exactly which totals can always be split ----------

  ghost predicate IsInput(weights: seq<int>, comps: Vec, total: int) {
    |weights| > 0 && Positive(weights) && NonNegative(comps) && Sum(weights) == Sum4(comps) == total
  }

  /** Every way to spread the total over days and components can be split. */
  ghost predicate AlwaysSplits(total: int) {
    forall weights, comps :: IsInput(weights, comps, total) ==> Allocate(weights, comps).Answer?
  }

  /** The split never fails on a total exactly while the total times one less than
      itself is inside int64. */
  lemma SplitsIff(total: int)
    requires 0 < total <= MAX
    ensures AlwaysSplits(total) <==> total * (total - 1) <= MAX
  {
    if total * (total - 1) <= MAX {
      forall weights, comps | IsInput(weights, comps, total)
        ensures Allocate(weights, comps).Answer?
      {
        TotalSuffices(weights, comps);
        AllocateNeverFails(weights, comps);
      }
    } else {
      LargeTotalFails(total);
    }
  }

  /** Where the product does not fit, one token of one component on a second day is
      enough to be refused. */
  lemma LargeTotalFails(t: int)
    requires 1 < t <= MAX && t * (t - 1) > MAX
    ensures IsInput([t - 1, 1], [t, 0, 0, 0], t) && Allocate([t - 1, 1], [t, 0, 0, 0]) == Refused
  {
    var weights := [t - 1, 1];
    assert weights[1..] == [1] && weights[1..][1..] == [];
    assert Sum(weights[1..]) == 1;
    LargeRowFails(t);
  }

  lemma LargeRowFails(t: int)
    requires 1 < t <= MAX && t * (t - 1) > MAX
    ensures Row([t, 0, 0, 0], t - 1, t) == None
  {
    var comps: Vec := [t, 0, 0, 0];
    WrappedShare(t);
    var q := Shares(comps, t - 1, t);
    assert q[1] == 0 && q[2] == 0 && q[3] == 0;
    ShortGrant(q, comps, Rests(comps, t - 1, t), t - 1);
  }

  /** Two units short, and only one component that can take one. */
  lemma ShortGrant(q: Vec, pool: Vec, rem: Vec, w: int)
    requires 0 < w <= MAX && -SMALL <= q[0] <= w - 2 && q[0] <= SMALL && q[1] == q[2] == q[3] == 0
    requires pool[1] == pool[2] == pool[3] == 0
    ensures Grant(q, pool, rem, {0, 1, 2, 3}, Wrap(w - Wrap(Sum4(q)))).1 != 0
  {
    LeftIsExact(q, w);
    GrantTakesOne(q, pool, rem, {0, 1, 2, 3}, Wrap(w - Wrap(Sum4(q))));
  }

  /** One lap of the register is more than two divisors: the quotient falls short. */
  lemma WrappedShare(t: int)
    requires 1 < t <= MAX && t * (t - 1) > MAX
    ensures -SMALL <= Share(t, t - 1, t) <= t - 3 && Share(t, t - 1, t) <= SMALL
  {
    ShareIsSmall(t, t - 1, t);
    LosesALap(t * (t - 1));
    ShortQuotient(Wrap(t * (t - 1)), t);
  }

  lemma ShortQuotient(product: int, t: int)
    requires 1 < t <= MAX && t * (t - 1) > MAX && product <= t * (t - 1) - SPAN
    ensures TruncDiv(product, t) <= t - 3
  {
    if product >= 0 {
      assert t * (t - 1) == (t - 3) * t + 2 * t;
      QuotientBound(product, t, t - 3);
    } else {
      assert t >= 3;
      NotNegative(-product, t);
    }
  }

  lemma NotNegative(a: int, d: int)
    requires a >= 0 && d > 0
    ensures a / d >= 0
  {
  }

  lemma LosesALap(x: int)
    requires x > MAX
    ensures Wrap(x) <= x - SPAN
  {
    assert (x - MIN) / SPAN >= 1;
  }

  /** Where only component 0 has anything left in its pool, it takes one unit. */
  lemma {:induction false} GrantTakesOne(cells: Vec, pool: Vec, rem: Vec, free: set<int>, left: int)
    requires free <= {0, 1, 2, 3} && forall c :: 0 < c < 4 ==> cells[c] >= pool[c]
    ensures Grant(cells, pool, rem, free, left).1 >= left - if 0 in free then 1 else 0
    decreases |free|
  {
    if free != {} && left > 0 {
      BestExists(rem, free);
      var c :| IsBest(rem, free, c);
      GrantTakesOne(cells, pool, rem, free - {c}, left);
      GrantTakesOne(cells[c := cells[c] + 1], pool, rem, free - {c}, left - 1);
    }
  }

  // ---------- the divisor ----------

  /** While the days sum to less than one lap of the register, no divisor is zero. */
  lemma {:induction false} DivisorIsNeverZero(weights: seq<int>, pool: Vec)
    requires |weights| > 0 && Positive(weights) && Sum(weights) < SPAN
    ensures Rows(weights, pool) != ZeroDivisor
    decreases |weights|
  {
    if |weights| > 1 {
      SumPositive(weights);
      assert Wrap(Sum(weights)) != 0;
      if Row(pool, weights[0], Wrap(Sum(weights))).Some? {
        var row := Row(pool, weights[0], Wrap(Sum(weights))).value;
        DivisorIsNeverZero(weights[1..], WrapMinus(pool, row));
      }
    }
  }

  function Repeat(x: int, n: nat): (xs: seq<int>)
    ensures |xs| == n && forall i :: 0 <= i < n ==> xs[i] == x
  {
    seq(n, _ => x)
  }

  lemma {:induction false} SumRepeat(x: int, n: nat)
    ensures Sum(Repeat(x, n)) == x * n
  {
    if n > 0 {
      assert Repeat(x, n)[1..] == Repeat(x, n - 1);
      SumRepeat(x, n - 1);
    }
  }

  const QUARTER: int := 0x4000_0000_0000_0000

  /** Days of one token each, then whole laps of the register. */
  function Laps(ones: nat, laps: nat): seq<int> {
    Repeat(1, ones) + Repeat(QUARTER, 4 * laps)
  }

  lemma {:induction false} LapsSum(ones: nat, laps: nat)
    ensures Sum(Laps(ones, laps)) == ones + SPAN * laps
    decreases ones
  {
    if ones == 0 {
      assert Laps(0, laps) == Repeat(QUARTER, 4 * laps);
      SumRepeat(QUARTER, 4 * laps);
    } else {
      assert Laps(ones, laps)[1..] == Laps(ones - 1, laps);
      LapsSum(ones - 1, laps);
    }
  }

  lemma WholeLaps(x: int, laps: nat)
    requires 0 <= x <= MAX
    ensures Wrap(x + SPAN * laps) == x
  {
  }

  /** The days of one token use the pool up; the laps that follow weigh nothing. */
  lemma {:induction false} LapsReachZero(ones: nat, laps: nat)
    requires ones <= MAX && laps > 0
    ensures Rows(Laps(ones, laps), [ones, 0, 0, 0]) == ZeroDivisor
    decreases ones
  {
    var ws := Laps(ones, laps);
    LapsSum(ones, laps);
    WholeLaps(ones, laps);
    assert |ws| > 1 && Wrap(Sum(ws)) == ones;
    if ones > 0 {
      OneToken(ones);
      LapsReachZero(ones - 1, laps);
      assert ws[0] == 1 && ws[1..] == Laps(ones - 1, laps);
    }
  }

  lemma OneToken(n: int)
    requires 0 < n <= MAX
    ensures Row([n, 0, 0, 0], 1, n) == Some([1, 0, 0, 0])
    ensures WrapMinus([n, 0, 0, 0], [1, 0, 0, 0]) == [n - 1, 0, 0, 0]
  {
    assert Shares([n, 0, 0, 0], 1, n) == [1, 0, 0, 0];
  }

  /** Day weights and a vector as they come out of a snapshot: every number is an
      int64, and the vector's sum was compared with a total that is not negative. */
  ghost predicate FromTotals(weights: seq<int>, comps: Vec, sum: int) {
    && Positive(weights) && (forall i :: 0 <= i < |weights| ==> weights[i] <= MAX) && Sum(weights) == sum
    && NonNegative(comps) && InInt64(comps) && Wrap(Sum4(comps)) >= 0
  }

  ghost predicate DividesByZero(weights: seq<int>, comps: Vec, sum: int) {
    FromTotals(weights, comps, sum) && Allocate(weights, comps) == ZeroDivisor
  }

  /** The program divides by zero for some days of this true sum exactly when the sum
      is at least one lap of the register and its wrapped value is not negative. */
  lemma ZeroDivisorIff(sum: int)
    ensures (exists weights, comps :: DividesByZero(weights, comps, sum)) <==> sum >= SPAN && Wrap(sum) >= 0
  {
    forall weights, comps | DividesByZero(weights, comps, sum)
      ensures sum >= SPAN && Wrap(sum) >= 0
    {
      ZeroNeedsALap(weights, comps, sum);
    }
    if sum >= SPAN && Wrap(sum) >= 0 {
      SplitIntoLaps(sum);
      LapsDivideByZero(Wrap(sum), sum / SPAN);
    }
  }

  lemma ZeroNeedsALap(weights: seq<int>, comps: Vec, sum: int)
    requires DividesByZero(weights, comps, sum)
    ensures sum >= SPAN && Wrap(sum) >= 0
  {
    if sum < SPAN {
      DivisorIsNeverZero(weights, comps);
    }
  }

  lemma SplitIntoLaps(sum: int)
    requires sum >= SPAN && Wrap(sum) >= 0
    ensures sum == Wrap(sum) + SPAN * (sum / SPAN) && sum / SPAN > 0
  {
  }

  lemma LapsDivideByZero(ones: nat, laps: nat)
    requires ones <= MAX && laps > 0
    ensures DividesByZero(Laps(ones, laps), [ones, 0, 0, 0], ones + SPAN * laps)
  {
    LapsReachZero(ones, laps);
    LapsAreInput(ones, laps);
  }

  lemma LapsAreInput(ones: nat, laps: nat)
    requires ones <= MAX && laps > 0
    ensures FromTotals(Laps(ones, laps), [ones, 0, 0, 0], ones + SPAN * laps)
    ensures Wrap(Sum(Laps(ones, laps))) == Wrap(Sum4([ones, 0, 0, 0])) && |Laps(ones, laps)| > 0
  {
    LapsSum(ones, laps);
    WholeLaps(ones, laps);
  }

  /** One day that uses up the vector, then whole laps of the register. */
  function BulkDays(t: int, laps: nat): seq<int> {
    [t] + Repeat(QUARTER, 4 * laps)
  }

  lemma BulkSum(t: int, laps: nat)
    ensures Sum(BulkDays(t, laps)) == t + SPAN * laps
  {
    assert BulkDays(t, laps)[1..] == Laps(0, laps);
    LapsSum(0, laps);
  }

  /** Of the days that follow, the register holds a sum of zero. */
  lemma BulkReachesZero(t: int, laps: nat)
    requires 0 < t && t * t <= MAX && laps > 0
    ensures t <= MAX && Allocate(BulkDays(t, laps), [t, 0, 0, 0]) == ZeroDivisor
  {
    Scaled(1, t, t);
    BulkSum(t, laps);
    WholeLaps(t, laps);
    BulkRow(t);
    LapsReachZero(0, laps);
    BulkUnfolds(t, laps);
  }

  lemma BulkUnfolds(t: int, laps: nat)
    requires 0 < t <= MAX && laps > 0 && Wrap(Sum(BulkDays(t, laps))) == t
    requires Row([t, 0, 0, 0], t, t) == Some([t, 0, 0, 0]) && WrapMinus([t, 0, 0, 0], [t, 0, 0, 0]) == [0, 0, 0, 0]
    requires Rows(Laps(0, laps), [0, 0, 0, 0]) == ZeroDivisor
    ensures Rows(BulkDays(t, laps), [t, 0, 0, 0]) == ZeroDivisor && Positive(BulkDays(t, laps))
  {
    assert BulkDays(t, laps)[1..] == Laps(0, laps);
    RowsUnfold(BulkDays(t, laps), [t, 0, 0, 0]);
  }

  lemma BulkRow(t: int)
    requires 0 < t <= MAX && t * t <= MAX
    ensures Row([t, 0, 0, 0], t, t) == Some([t, 0, 0, 0])
    ensures WrapMinus([t, 0, 0, 0], [t, 0, 0, 0]) == [0, 0, 0, 0]
  {
    WholeShare(t);
    NoShare(t, t);
    NothingLeft([t, 0, 0, 0], t, t, [t, 0, 0, 0]);
  }

  lemma WholeShare(t: int)
    requires 0 < t <= MAX && t * t <= MAX
    ensures Share(t, t, t) == t
  {
    Scaled(0, t, t);
    assert t * t / t == t;
  }

  lemma NoShare(w: int, remW: int)
    requires remW > 0
    ensures Share(0, w, remW) == 0
  {
    assert 0 * w == 0;
  }

  /** Shares that use up the day's weight are its row. */
  lemma NothingLeft(pool: Vec, w: int, remW: int, row: Vec)
    requires remW != 0 && Shares(pool, w, remW) == row && Sum4(row) == w && Fits(w)
    requires NonNegative(WrapMinus(pool, row))
    ensures Row(pool, w, remW) == Some(row)
  {
  }

  // ---------- the program ----------

  datatype Frac = Frac(idx: nat, rem: int)

  /** The entries of order from position a on are the components of free. */
  ghost predicate Ordered(order: seq<Frac>, rem: Vec, a: nat, free: set<int>) {
    && |order| == 4 && a <= 4 && free <= {0, 1, 2, 3}
    && (forall k :: 0 <= k < 4 ==> order[k].idx < 4 && order[k].rem == rem[order[k].idx])
    && (forall k, m :: 0 <= k < m < 4 ==> order[k].idx != order[m].idx)
    && (forall k :: 0 <= k < 4 ==> (order[k].idx in free <==> a <= k))
  }

  /** The body of the loop over days: one row, and whether the pool could fill it. */
  method AllocateRow(pool: Vec, w: int, remW: int) returns (row: Vec, ok: bool)
    requires remW != 0
    ensures Row(pool, w, remW) == if ok then Some(row) else None
  {
    var cells, order, used := FloorShares(pool, w, remW);
    var left := Wrap(w - used);
    row, left := GrantLeft(cells, pool, order, Rests(pool, w, remW), left);
    if left != 0 {
      return row, false;
    }
    ok := NonNegativeRest(pool, row);
  }

  function UpTo(v: Vec, n: nat): int {
    (if n > 0 then v[0] else 0) + (if n > 1 then v[1] else 0) + (if n > 2 then v[2] else 0)
      + (if n > 3 then v[3] else 0)
  }

  /** The first loop over the components: quotients, remainders, and what they use. */
  method FloorShares(pool: Vec, w: int, remW: int) returns (cells: Vec, order: seq<Frac>, used: int)
    requires remW != 0
    ensures cells == Shares(pool, w, remW) && used == Wrap(Sum4(cells))
    ensures Ordered(order, Rests(pool, w, remW), 0, {0, 1, 2, 3})
  {
    ghost var q, rem := Shares(pool, w, remW), Rests(pool, w, remW);
    cells, used := [0, 0, 0, 0], 0;
    order := [Frac(0, 0), Frac(1, 0), Frac(2, 0), Frac(3, 0)];
    for c := 0 to 4
      invariant |order| == 4
      invariant forall k :: 0 <= k < 4 ==> order[k].idx == k
      invariant forall k :: 0 <= k < c ==> cells[k] == q[k] && order[k].rem == rem[k]
      invariant used == Wrap(UpTo(q, c))
    {
      var quotient, rest := Divide(pool[c], w, remW);
      assert quotient == q[c] && rest == rem[c];
      WrapAdds(UpTo(q, c), quotient);
      cells, used, order := cells[c := quotient], Wrap(used + quotient), order[c := Frac(c, rest)];
    }
  }

  /** One component's product, divided. */
  method Divide(p: int, w: int, remW: int) returns (quotient: int, rest: int)
    requires remW != 0
    ensures quotient == Share(p, w, remW) && rest == TruncMod(Wrap(p * w), remW)
  {
    var product := Wrap(p * w);
    quotient, rest := Wrap(TruncDiv(product, remW)), TruncMod(product, remW);
  }

  lemma WrapAdds(a: int, b: int)
    ensures Wrap(Wrap(a) + b) == Wrap(a + b)
  {
  }

  method NonNegativeRest(pool: Vec, row: Vec) returns (ok: bool)
    ensures ok == NonNegative(WrapMinus(pool, row))
  {
    for c := 0 to 4
      invariant forall k {:trigger pool[k]} :: 0 <= k < c ==> Wrap(pool[k] - row[k]) >= 0
    {
      if Wrap(pool[c] - row[c]) < 0 {
        return false;
      }
    }
    return true;
  }

  /** The selection loop: the left-over units, by repeated choice of the best entry. */
  method GrantLeft(start: Vec, pool: Vec, fracs: seq<Frac>, ghost rem: Vec, units: int) returns (cells: Vec, left: int)
    requires Ordered(fracs, rem, 0, {0, 1, 2, 3})
    ensures (cells, left) == Grant(start, pool, rem, {0, 1, 2, 3}, units)
  {
    cells, left := start, units;
    var order, a := fracs, 0;
    ghost var free := {0, 1, 2, 3};
    while a < 4 && left > 0
      invariant Ordered(order, rem, a, free)
      invariant Grant(start, pool, rem, {0, 1, 2, 3}, units) == Grant(cells, pool, rem, free, left)
    {
      var best := BestEntry(order, rem, a, free);
      order := order[a := order[best]][best := order[a]];
      var c := order[a].idx;
      free := free - {c};
      a := a + 1;
      if cells[c] >= pool[c] {
        continue;
      }
      cells := cells[c := cells[c] + 1];
      left := left - 1;
    }
    assert a == 4 ==> free == {} by {
      if a == 4 && free != {} {
        var c :| c in free;
        assert c == 0 || c == 1 || c == 2 || c == 3;
        IndexHit(order, rem, c);
      }
    }
  }

  lemma IndexHit(order: seq<Frac>, rem: Vec, c: int)
    requires 0 <= c < 4 && |order| == 4
    requires forall k :: 0 <= k < 4 ==> order[k].idx < 4
    requires forall k, m :: 0 <= k < m < 4 ==> order[k].idx != order[m].idx
    ensures exists k :: 0 <= k < 4 && order[k].idx == c
  {
    assert order[0].idx != order[1].idx && order[0].idx != order[2].idx && order[0].idx != order[3].idx;
    assert order[1].idx != order[2].idx && order[1].idx != order[3].idx && order[2].idx != order[3].idx;
  }

  method BestEntry(order: seq<Frac>, ghost rem: Vec, a: nat, ghost free: set<int>) returns (best: nat)
    requires a < 4 && Ordered(order, rem, a, free)
    ensures a <= best < 4 && IsBest(rem, free, order[best].idx)
  {
    best := a;
    for b := a + 1 to 4
      invariant a <= best < b
      invariant forall k :: a <= k < b && k != best ==> Before(rem, order[best].idx, order[k].idx)
    {
      if order[b].rem > order[best].rem || (order[b].rem == order[best].rem && order[b].idx < order[best].idx) {
        best := b;
      }
    }
    forall d | d in free && d != order[best].idx
      ensures Before(rem, order[best].idx, d)
    {
      IndexHit(order, rem, d);
    }
  }

  method AllocateComponents(weights: seq<int>, comps: Vec) returns (r: Split<seq<Vec>>)
    ensures r == Allocate(weights, comps)
  {
    hide Row;
    if |weights| == 0 {
      return Refused;
    }
    var pool := comps;
    var remW, usable := AddWeights(weights);
    if !usable {
      return Refused;
    }
    if remW != Wrap(Sum4(pool)) {
      return Refused;
    }
    var rows: seq<Vec> := [];
    assert weights[0..] == weights;
    PrependNothing(Rows(weights, comps));
    for i := 0 to |weights|
      invariant i < |weights| && remW == Wrap(Sum(weights[i..]))
      invariant Rows(weights, comps) == Prepend(rows, Rows(weights[i..], pool))
    {
      var w := weights[i];
      if i == |weights| - 1 {
        if Wrap(Sum4(pool)) != w {
          return Refused;
        }
        return Answer(rows + [pool]);
      }
      RowsUnfold(weights[i..], pool);
      assert weights[i..][1..] == weights[i + 1..];
      if remW == 0 {
        return ZeroDivisor;
      }
      var row, filled := AllocateRow(pool, w, remW);
      if !filled {
        return Refused;
      }
      pool := WrapMinus(pool, row);
      remW := Wrap(remW - w);
      PrependTwice(rows, row, Rows(weights[i + 1..], pool));
      rows := rows + [row];
    }
  }

  /** The first loop: every weight must be positive. */
  method AddWeights(weights: seq<int>) returns (sum: int, ok: bool)
    ensures ok == Positive(weights)
    ensures ok ==> sum == Wrap(Sum(weights))
  {
    sum, ok := 0, true;
    for i := 0 to |weights|
      invariant forall k :: 0 <= k < i ==> weights[k] > 0
      invariant sum == Wrap(Sum(weights[..i]))
    {
      if weights[i] <= 0 {
        return sum, false;
      }
      SumSnoc(weights, i);
      WrapAdds(Sum(weights[..i]), weights[i]);
      sum := Wrap(sum + weights[i]);
    }
    assert weights[..|weights|] == weights;
  }

  lemma RowsUnfold(weights: seq<int>, pool: Vec)
    requires |weights| > 1
    ensures Wrap(Wrap(Sum(weights)) - weights[0]) == Wrap(Sum(weights[1..]))
    ensures var remW := Wrap(Sum(weights));
            Rows(weights, pool) ==
            if remW == 0 then ZeroDivisor
            else match Row(pool, weights[0], remW)
                 case None => Refused
                 case Some(row) => Prepend([row], Rows(weights[1..], WrapMinus(pool, row)))
  {
    WrapAdds(Sum(weights), -weights[0]);
  }

  lemma PrependNothing(rest: Split<seq<Vec>>)
    ensures Prepend([], rest) == rest
  {
    if rest.Answer? {
      assert [] + rest.value == rest.value;
    }
  }

  lemma PrependTwice(rows: seq<Vec>, row: Vec, rest: Split<seq<Vec>>)
    ensures Prepend(rows, Prepend([row], rest)) == Prepend(rows + [row], rest)
  {
    if rest.Answer? {
      assert rows + ([row] + rest.value) == rows + [row] + rest.value;
    }
  }

  lemma {:induction false} SumSnoc(ws: seq<int>, i: nat)
    requires i < |ws|
    ensures Sum(ws[..i + 1]) == Sum(ws[..i]) + ws[i]
  {
    if i > 0 {
      assert ws[..i + 1][1..] == ws[1..][..i] && ws[..i][1..] == ws[1..][..i - 1];
      SumSnoc(ws[1..], i - 1);
    }
  }
}
