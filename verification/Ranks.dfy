/** Model of internal/community/rank.go and of the counting in Store.Rank: competition ranks
    over the participants that have a score. */
module Ranks {
  import opened Community
  import opened Scores
  import opened Wrappers

  datatype Status = Ok | Unavailable | NotRanked | Insufficient

  datatype Standing = Standing(status: Status, rank: nat, participants: nat)

  // ---------- ranks ----------

  ghost function ScoreIn(s: State, id: string, kind: Kind, metric: Metric): Option<int> {
    if id in s.days then ScoreOf(s.days[id], kind, metric) else None
  }

  /** Everybody who takes part in a ranking. */
  ghost function Ranked(s: State, kind: Kind, metric: Metric): set<string> {
    set id | id in s.days && ScoreIn(s, id, kind, metric).Some? :: id
  }

  ghost function Better(s: State, kind: Kind, metric: Metric, score: int): set<string> {
    set id | id in s.days && ScoreIn(s, id, kind, metric).Some? && ScoreIn(s, id, kind, metric).value > score :: id
  }

  /** FinishStanding: a rank is shown only in a crowd that is large enough. */
  function Finish(status: Status, rank: nat, n: nat, crowd: nat): (r: Standing)
    ensures r.rank > 0 <==> status == Ok && n >= crowd && rank > 0
    ensures r.status == Ok <==> r.rank > 0
  {
    match status
    case Ok =>
      if n < crowd then Standing(Insufficient, 0, n) else if rank == 0 then Standing(NotRanked, 0, n)
      else Standing(Ok, rank, n)
    case _ => Standing(status, 0, n)
  }

  ghost function RankOf(s: State, id: string, kind: Kind, metric: Metric, crowd: nat): Standing {
    if metric == Cost && kind == AllTime then Standing(Unavailable, 0, 0)
    else
      var n := |Ranked(s, kind, metric)|;
      if n < crowd then Standing(Insufficient, 0, n)
      else if ScoreIn(s, id, kind, metric).None? then Standing(NotRanked, 0, n)
      else Standing(Ok, 1 + |Better(s, kind, metric, ScoreIn(s, id, kind, metric).value)|, n)
  }

  /** There is no rank over all costs. Otherwise those with a score take part; too few of them hide all
      ranks, no score gives none, and a rank is one more than the number of higher scores. */
  lemma RankTells(s: State, id: string, kind: Kind, metric: Metric, crowd: nat)
    ensures var r := RankOf(s, id, kind, metric, crowd);
            if kind == AllTime && metric == Cost then r == Standing(Unavailable, 0, 0)
            else
              var scored := set pid | pid in s.days && ScoreOf(s.days[pid], kind, metric).Some?;
              && r.participants == |scored|
              && (|scored| < crowd ==> r.status == Insufficient && r.rank == 0)
              && (|scored| >= crowd && id !in scored ==> r.status == NotRanked && r.rank == 0)
              && (|scored| >= crowd && id in scored ==>
                    var own := ScoreOf(s.days[id], kind, metric).value;
                    && r.status == Ok
                    && r.rank == 1 + |set pid | pid in scored && ScoreOf(s.days[pid], kind, metric).value > own|)
  {
    var scored := set pid | pid in s.days && ScoreOf(s.days[pid], kind, metric).Some?;
    assert scored == Ranked(s, kind, metric);
    if id in scored {
      var own := ScoreOf(s.days[id], kind, metric).value;
      var better := set pid | pid in scored && ScoreOf(s.days[pid], kind, metric).value > own;
      assert better == Better(s, kind, metric, own);
    }
  }

  lemma SmallerSet<T>(a: set<T>, b: set<T>, x: T)
    requires a <= b && x in b && x !in a
    ensures |a| < |b|
  {
    assert a <= b - {x};
    SubsetSize(a, b - {x});
  }

  lemma SubsetSize<T>(a: set<T>, b: set<T>)
    requires a <= b
    ensures |a| <= |b|
  {
    assert b == a + (b - a);
  }

  /** Ranks order participants by score, tied scores share a rank, and a rank lies between
      one and the number of participants. */
  lemma RanksFollowScores(s: State, a: string, b: string, kind: Kind, metric: Metric, crowd: nat)
    requires RankOf(s, a, kind, metric, crowd).status == Ok && RankOf(s, b, kind, metric, crowd).status == Ok
    ensures var x, y := ScoreIn(s, a, kind, metric).value, ScoreIn(s, b, kind, metric).value;
            var p, q := RankOf(s, a, kind, metric, crowd), RankOf(s, b, kind, metric, crowd);
            (p.rank < q.rank <==> x > y) && (p.rank == q.rank <==> x == y) && 1 <= p.rank <= p.participants
  {
    var x, y := ScoreIn(s, a, kind, metric).value, ScoreIn(s, b, kind, metric).value;
    RankGap(s, a, b, kind, metric, x, y);
    RankGap(s, b, a, kind, metric, y, x);
    SmallerSet(Better(s, kind, metric, x), Ranked(s, kind, metric), a);
  }

  lemma RankGap(s: State, a: string, b: string, kind: Kind, metric: Metric, x: int, y: int)
    requires ScoreIn(s, a, kind, metric) == Some(x) && ScoreIn(s, b, kind, metric) == Some(y)
    ensures x > y ==> |Better(s, kind, metric, x)| < |Better(s, kind, metric, y)|
  {
    if x > y {
      SmallerSet(Better(s, kind, metric, x), Better(s, kind, metric, y), a);
    }
  }

  /** Nobody can find out that an id was ever there: after it left, every question about any
      participant has the answer it has on the trace without that id, and the id itself is
      not ranked. */
  lemma DepartedIsUnseen(ops: seq<Op>, id: string, who: string, kind: Kind, metric: Metric, crowd: nat)
    ensures RankOf(Run(ops + [Leave(id)]), who, kind, metric, crowd)
            == RankOf(Run(Without(ops, id)), who, kind, metric, crowd)
    ensures RankOf(Run(ops + [Leave(id)]), id, kind, metric, crowd).status != Ok
  {
    LeaveLeavesNothing(ops, id);
    ForgetIsWithout(ops, id);
    assert id !in Forget(Run(ops), id).days;
  }

  // ---------- the program ----------

  /** CompetitionRank: one more than the better scores. */
  method CompetitionRank(scores: seq<int>, own: int) returns (rank: nat, n: nat)
    ensures n == |scores|
    ensures rank == if scores == [] then 0 else 1 + Above(scores, own)
  {
    n := |scores|;
    if n == 0 {
      return 0, 0;
    }
    var better := 0;
    for i := 0 to n
      invariant better == Above(scores[..i], own)
    {
      assert scores[..i + 1][..i] == scores[..i];
      if scores[i] > own {
        better := better + 1;
      }
    }
    assert scores[..n] == scores;
    rank := better + 1;
  }

  function Above(scores: seq<int>, x: int): nat {
    if scores == [] then 0 else Above(scores[..|scores| - 1], x) + if scores[|scores| - 1] > x then 1 else 0
  }

  // ---------- a list of all participants counts them ----------

  lemma {:induction false} DistinctSize(who: seq<string>, s: set<string>)
    requires (forall i, j :: 0 <= i < j < |who| ==> who[i] != who[j]) && forall k :: k in who <==> k in s
    ensures |s| == |who|
  {
    if who == [] {
      assert (forall k :: k !in s) ==> s == {};
    } else {
      var init, last := who[..|who| - 1], who[|who| - 1];
      assert who == init + [last];
      DistinctSize(init, s - {last});
    }
  }

  /** who are the ranked participants that are not pending, each once, with their scores. */
  ghost predicate Listed(s: State, kind: Kind, metric: Metric, scores: seq<int>, who: seq<string>,
                         pending: set<string>)
  {
    && |who| == |scores| && (forall i, j :: 0 <= i < j < |who| ==> who[i] != who[j])
    && (forall k :: k in who <==> k in Ranked(s, kind, metric) && k !in pending)
    && forall i :: 0 <= i < |who| ==> ScoreIn(s, who[i], kind, metric) == Some(scores[i])
  }

  lemma ListedStep(s: State, kind: Kind, metric: Metric, scores: seq<int>, who: seq<string>, pending: set<string>,
                   pid: string)
    requires Listed(s, kind, metric, scores, who, pending) && pid in pending && pid in s.days
    ensures ScoreIn(s, pid, kind, metric).None? ==> Listed(s, kind, metric, scores, who, pending - {pid})
    ensures ScoreIn(s, pid, kind, metric).Some? ==>
              Listed(s, kind, metric, scores + [ScoreIn(s, pid, kind, metric).value], who + [pid], pending - {pid})
  {
    assert pid !in who;
  }

  lemma CountMatches(s: State, kind: Kind, metric: Metric, scores: seq<int>, who: seq<string>)
    requires Listed(s, kind, metric, scores, who, {})
    ensures |scores| == |Ranked(s, kind, metric)|
  {
    DistinctSize(who, Ranked(s, kind, metric));
  }

  /** The members of the list whose score is above x. */
  ghost function Winners(scores: seq<int>, who: seq<string>, x: int): (w: seq<string>)
    requires |who| == |scores|
    ensures |w| == Above(scores, x) && forall k :: k in w ==> k in who
  {
    if scores == [] then []
    else
      var n := |scores| - 1;
      assert who == who[..n] + [who[n]];
      Winners(scores[..n], who[..n], x) + if scores[n] > x then [who[n]] else []
  }

  lemma {:induction false} WinnersAre(scores: seq<int>, who: seq<string>, x: int)
    requires |who| == |scores| && forall i, j :: 0 <= i < j < |who| ==> who[i] != who[j]
    ensures var w := Winners(scores, who, x);
            && (forall i, j :: 0 <= i < j < |w| ==> w[i] != w[j])
            && forall i :: 0 <= i < |who| ==> (who[i] in w <==> scores[i] > x)
  {
    if scores != [] {
      var n := |scores| - 1;
      WinnersAre(scores[..n], who[..n], x);
      assert who[n] !in who[..n];
      forall i | 0 <= i < n ensures who[i] in Winners(scores, who, x) <==> scores[i] > x {
        assert who[..n][i] == who[i] && scores[..n][i] == scores[i];
      }
    }
  }

  lemma AboveMatches(s: State, kind: Kind, metric: Metric, scores: seq<int>, who: seq<string>, x: int)
    requires Listed(s, kind, metric, scores, who, {})
    ensures Above(scores, x) == |Better(s, kind, metric, x)|
  {
    var w := Winners(scores, who, x);
    WinnersAre(scores, who, x);
    forall k ensures k in w <==> k in Better(s, kind, metric, x) {
      if k in Better(s, kind, metric, x) {
        assert k in Ranked(s, kind, metric);
        var i :| 0 <= i < |who| && who[i] == k;
      }
    }
    DistinctSize(w, Better(s, kind, metric, x));
  }
}
