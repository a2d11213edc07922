/** Model of scoreOf in internal/community/store.go: what a participant's days are worth in
    a ranking, whatever order the map yields them in. */
module Scores {
  import opened Community
  import opened Int64
  import opened SortedDays
  import opened Wrappers
  import A = Apportion

  datatype Kind = OneDay(date: int) | AllTime

  datatype Metric = Tokens | Cost

  /** rowValue: only a positive value counts. */
  function Value(row: Row, metric: Metric): Option<int> {
    match metric
    case Tokens => if row.tokens > 0 then Some(row.tokens) else None
    case Cost => if row.micro.Some? && row.micro.value > 0 then row.micro else None
  }

  function ValueOrZero(days: map<int, Row>, day: int, metric: Metric): int
    requires day in days
  {
    Value(days[day], metric).GetOr(0)
  }

  /** The values of some days, added up. */
  ghost function SumOver(days: map<int, Row>, ds: set<int>, metric: Metric): int
    requires ds <= days.Keys
    decreases |ds|
  {
    if ds == {} then 0 else var d := Least(ds); ValueOrZero(days, d, metric) + SumOver(days, ds - {d}, metric)
  }

  lemma {:induction false} SumWithout(days: map<int, Row>, ds: set<int>, day: int, metric: Metric)
    requires ds <= days.Keys && day in ds
    ensures SumOver(days, ds, metric) == ValueOrZero(days, day, metric) + SumOver(days, ds - {day}, metric)
    decreases |ds|
  {
    var d := Least(ds);
    if d != day {
      var less := ds - {day};
      SumWithout(days, ds - {d}, day, metric);
      assert ds - {d} - {day} == less - {d};
      assert d in less;
      LeastIs(less, d);
    }
  }

  lemma LeastIs(s: set<int>, m: int)
    requires m in s && forall x :: x in s ==> m <= x
    ensures s != {} && Least(s) == m
  {
  }

  /** scoreOf: one day's value, or the sum of all; a day without a complete cost voids a
      cost sum. The sum is an int64. */
  ghost function ScoreOf(days: map<int, Row>, kind: Kind, metric: Metric): Option<int> {
    match kind
    case OneDay(date) => if date in days then Value(days[date], metric) else None
    case AllTime =>
      if metric == Cost && !AllCount(days, days.Keys, metric) then None
      else
        var sum := Wrap(SumOver(days, days.Keys, metric));
        if AnyCounts(days, days.Keys, metric) && sum > 0 then Some(sum) else None
  }

  ghost predicate AnyCounts(days: map<int, Row>, ds: set<int>, metric: Metric) {
    exists d :: d in ds && d in days && Value(days[d], metric).Some?
  }

  ghost predicate AllCount(days: map<int, Row>, ds: set<int>, metric: Metric) {
    forall d :: d in ds && d in days ==> Value(days[d], metric).Some?
  }

  // ---------- what a score is made of ----------

  /** The positive token counts of some days. */
  ghost function TokensOver(days: map<int, Row>, ds: set<int>): int
    requires ds <= days.Keys
    decreases |ds|
  {
    if ds == {} then 0
    else
      var d := Least(ds);
      (if days[d].tokens > 0 then days[d].tokens else 0) + TokensOver(days, ds - {d})
  }

  /** The costs of some days, each in micro-dollars. */
  ghost function MicroOver(days: map<int, Row>, ds: set<int>): int
    requires ds <= days.Keys && forall d :: d in ds ==> days[d].micro.Some?
    decreases |ds|
  {
    if ds == {} then 0 else var d := Least(ds); days[d].micro.value + MicroOver(days, ds - {d})
  }

  lemma {:induction false} SumIsTokens(days: map<int, Row>, ds: set<int>)
    requires ds <= days.Keys
    ensures SumOver(days, ds, Tokens) == TokensOver(days, ds)
    decreases |ds|
  {
    if ds != {} {
      SumIsTokens(days, ds - {Least(ds)});
    }
  }

  lemma {:induction false} SumIsMicro(days: map<int, Row>, ds: set<int>)
    requires ds <= days.Keys && forall d :: d in ds ==> days[d].micro.Some? && days[d].micro.value > 0
    ensures SumOver(days, ds, Cost) == MicroOver(days, ds)
    decreases |ds|
  {
    if ds != {} {
      SumIsMicro(days, ds - {Least(ds)});
    }
  }

  /** A score counts tokens or micro-dollars, as asked: of the one day, or of all days; a day without
      a positive cost voids the sum of costs, and one without tokens adds nothing. A score is
      positive, and the sums are registers. */
  lemma ScoreReads(days: map<int, Row>, kind: Kind, metric: Metric)
    ensures kind.OneDay? && kind.date !in days ==> ScoreOf(days, kind, metric) == None
    ensures kind.OneDay? && kind.date in days ==>
              var row := days[kind.date];
              ScoreOf(days, kind, metric)
              == if metric == Tokens then if row.tokens > 0 then Some(row.tokens) else None
                 else if row.micro.Some? && row.micro.value > 0 then row.micro else None
    ensures kind == AllTime && metric == Tokens ==>
              var sum := Wrap(TokensOver(days, days.Keys));
              ScoreOf(days, kind, metric)
              == if (exists d :: d in days && days[d].tokens > 0) && sum > 0 then Some(sum) else None
    ensures kind == AllTime && metric == Cost ==>
              if forall d :: d in days ==> days[d].micro.Some? && days[d].micro.value > 0 then
                var sum := Wrap(MicroOver(days, days.Keys));
                ScoreOf(days, kind, metric) == if days != map[] && sum > 0 then Some(sum) else None
              else ScoreOf(days, kind, metric) == None
  {
    if kind == AllTime && metric == Tokens {
      SumIsTokens(days, days.Keys);
      assert AnyCounts(days, days.Keys, Tokens) <==> exists d :: d in days && days[d].tokens > 0;
    }
    if kind == AllTime && metric == Cost && forall d :: d in days ==> days[d].micro.Some? && days[d].micro.value > 0 {
      SumIsMicro(days, days.Keys);
      if days != map[] {
        var d :| d in days;
        assert d in days.Keys && Value(days[d], Cost).Some?;
      }
    }
  }

  // ---------- the program ----------

  /** Days in the order the map yielded them, each once. */
  ghost predicate Visited(days: map<int, Row>, order: seq<int>, pending: set<int>) {
    && (forall i, j :: 0 <= i < j < |order| ==> order[i] != order[j])
    && (forall i :: 0 <= i < |order| ==> order[i] in days && order[i] !in pending)
       && (forall d :: d in days ==> d in order || d in pending)
  }

  ghost function SumAlong(days: map<int, Row>, order: seq<int>, metric: Metric): int {
    if order == [] then 0
    else
      var d := order[|order| - 1];
      SumAlong(days, order[..|order| - 1], metric) + if d in days then ValueOrZero(days, d, metric) else 0
  }

  ghost predicate AnyAlong(days: map<int, Row>, order: seq<int>, metric: Metric) {
    exists i :: 0 <= i < |order| && order[i] in days && Value(days[order[i]], metric).Some?
  }

  ghost predicate AllAlong(days: map<int, Row>, order: seq<int>, metric: Metric) {
    forall i :: 0 <= i < |order| && order[i] in days ==> Value(days[order[i]], metric).Some?
  }

  lemma VisitedStep(days: map<int, Row>, order: seq<int>, pending: set<int>, day: int)
    requires Visited(days, order, pending) && day in pending && day in days
    ensures Visited(days, order + [day], pending - {day})
  {
    assert forall d :: d in order + [day] <==> d in order || d == day;
  }

  lemma SumStep(days: map<int, Row>, order: seq<int>, day: int, metric: Metric)
    requires day in days
    ensures Wrap(SumAlong(days, order + [day], metric))
            == Wrap(Wrap(SumAlong(days, order, metric)) + ValueOrZero(days, day, metric))
  {
    assert (order + [day])[..|order|] == order;
    A.WrapAdds(SumAlong(days, order, metric), ValueOrZero(days, day, metric));
  }

  lemma CountsStep(days: map<int, Row>, order: seq<int>, day: int, metric: Metric)
    requires day in days
    ensures AnyAlong(days, order + [day], metric) <==> AnyAlong(days, order, metric) || Value(days[day], metric).Some?
    ensures AllAlong(days, order + [day], metric) <==> AllAlong(days, order, metric) && Value(days[day], metric).Some?
  {
    var more := order + [day];
    assert more[|order|] == day && forall i :: 0 <= i < |order| ==> more[i] == order[i];
  }

  /** What the loop of scoreOf has found: the sum, whether any day counts, and whether all do. */
  ghost predicate Found(days: map<int, Row>, order: seq<int>, metric: Metric, sum: int, some: bool, complete: bool) {
    sum == Wrap(SumAlong(days, order, metric)) && some == AnyAlong(days, order, metric)
      && complete == AllAlong(days, order, metric)
  }

  /** What one more day does to it. */
  lemma FoundStep(days: map<int, Row>, order: seq<int>, day: int, metric: Metric, sum: int, some: bool, complete: bool)
    requires day in days && Found(days, order, metric, sum, some, complete)
    ensures match Value(days[day], metric)
            case None => Found(days, order + [day], metric, sum, some, false)
            case Some(v) => Found(days, order + [day], metric, Wrap(sum + v), true, complete)
  {
    SumStep(days, order, day, metric);
    CountsStep(days, order, day, metric);
  }

  /** The loop of scoreOf over all days. A cost sum stops at the first day that has none. */
  method AddUp(days: map<int, Row>, metric: Metric) returns (sum: int, some: bool, complete: bool)
    ensures exists order, left :: Visited(days, order, left) && Found(days, order, metric, sum, some, complete)
              && (left == {} || (metric == Cost && !complete))
  {
    sum, some, complete := 0, false, true;
    var left := days.Keys;
    ghost var order := [];
    while left != {} && (complete || metric == Tokens)
      invariant left <= days.Keys && Visited(days, order, left) && Found(days, order, metric, sum, some, complete)
      decreases |left|
    {
      NotEmpty(left);
      var day :| day in left;
      VisitedStep(days, order, left, day);
      FoundStep(days, order, day, metric, sum, some, complete);
      left, order := left - {day}, order + [day];
      var v := Value(days[day], metric);
      if v == None {
        complete := false;
      } else {
        sum, some := Wrap(sum + v.value), true;
      }
    }
  }

  lemma {:induction false} AlongIsOver(days: map<int, Row>, order: seq<int>, ds: set<int>, metric: Metric)
    requires ds <= days.Keys && (forall i, j :: 0 <= i < j < |order| ==> order[i] != order[j])
             && forall d :: d in order <==> d in ds
    ensures SumAlong(days, order, metric) == SumOver(days, ds, metric)
  {
    if order == [] {
      assert (forall d :: d !in ds) ==> ds == {};
    } else {
      var init, d := order[..|order| - 1], order[|order| - 1];
      assert order == init + [d];
      AlongIsOver(days, init, ds - {d}, metric);
      SumWithout(days, ds, d, metric);
    }
  }

  lemma MissingAlong(days: map<int, Row>, order: seq<int>, metric: Metric)
    requires !AllAlong(days, order, metric)
    ensures !AllCount(days, days.Keys, metric)
  {
    var i :| 0 <= i < |order| && order[i] in days && Value(days[order[i]], metric).None?;
    var d := order[i];
    assert d in days.Keys && d in days && Value(days[d], metric).None?;
  }

  lemma AllVisited(days: map<int, Row>, order: seq<int>, metric: Metric)
    requires Visited(days, order, {})
    ensures AllAlong(days, order, metric) ==> AllCount(days, days.Keys, metric)
    ensures AnyAlong(days, order, metric) <==> AnyCounts(days, days.Keys, metric)
  {
    forall d | d in days.Keys ensures exists i :: 0 <= i < |order| && order[i] == d {
      assert d in order;
    }
    if AnyAlong(days, order, metric) {
      var i :| 0 <= i < |order| && order[i] in days && Value(days[order[i]], metric).Some?;
      assert order[i] in days.Keys;
    }
    if AllAlong(days, order, metric) {
      forall d | d in days.Keys && d in days ensures Value(days[d], metric).Some? {
        var i :| 0 <= i < |order| && order[i] == d;
        assert order[i] in days;
      }
    }
    if AnyCounts(days, days.Keys, metric) {
      var d :| d in days.Keys && d in days && Value(days[d], metric).Some?;
      var i :| 0 <= i < |order| && order[i] == d;
      assert order[i] in days;
    }
  }

  /** scoreOf. */
  method Score(days: map<int, Row>, kind: Kind, metric: Metric) returns (score: Option<int>)
    ensures score == ScoreOf(days, kind, metric)
  {
    if kind.OneDay? {
      return if kind.date in days then Value(days[kind.date], metric) else None;
    }
    var sum, some, complete := AddUp(days, metric);
    ghost var order, left :| Visited(days, order, left) && Found(days, order, metric, sum, some, complete)
                             && (left == {} || (metric == Cost && !complete));
    if !complete {
      MissingAlong(days, order, metric);
    }
    if metric == Cost && !complete {
      return None;
    }
    AllVisited(days, order, metric);
    AlongIsOver(days, order, days.Keys, metric);
    return if some && sum > 0 then Some(sum) else None;
  }
}
