/** The rank service of internal/community as an object: its methods are proved against the
    functions of Community and Ranks, whatever order its maps yield. */
module RankService {
  import opened Community
  import opened Ranks
  import opened Scores
  import opened Slices
  import opened Wrappers

  class RankStore {
    var days: map<string, map<int, Row>>
    var hits: map<string, Slice>
    const crowd: nat

    ghost predicate Valid()
      reads this
    {
      Framed(hits) && Consistent(View()) && crowd > 0
    }

    ghost function View(): State
      reads this
      requires Framed(hits)
    {
      State(days, Contents(hits))
    }

    constructor (minN: int)
      ensures Valid() && View() == EMPTY && crowd == (if minN <= 0 then DEFAULT_CROWD else minN)
    {
      days, hits := map[], map[];
      crowd := if minN <= 0 then DEFAULT_CROWD else minN;
    }

    /** rateLimitLocked. */
    method RateLimit(id: string, now: int) returns (limited: bool)
      requires Valid()
      modifies this`hits
      ensures Framed(hits)
      ensures var v := Limited(HitsOf(old(View()), id), now);
              && limited == v.Refused?
              && Contents(hits) == (if v.Refused? then old(Contents(hits)) else old(Contents(hits))[id := v.hits])
    {
      var slice := if id in hits then hits[id] else Slice([], 0);
      assert HitsOf(View(), id) == slice.mem[..slice.len];
      var stored;
      limited, stored := LimitSlice(slice, now);
      if limited {
        assert id in hits ==> hits[id := stored] == hits;
        return;
      }
      hits := hits[id := stored];
    }

    /** The upload of one day; ok is false when it is invalid or limited. */
    method Put(u: Upload, now: int) returns (ok: bool)
      requires Valid()
      modifies this
      ensures Valid() && View() == Next(old(View()), Op.Put(u, now)) && ok == Taken(old(View()), u, now)
    {
      RunStaysConsistent(View(), Op.Put(u, now));
      if !IsUuid(u.id) || !u.wellFormed {
        return false;
      }
      var limited := RateLimit(u.id, now);
      if limited {
        return false;
      }
      var byDay := if u.id in days then days[u.id] else map[];
      days := days[u.id := byDay[u.period := u.row]];
      return true;
    }

    /** Leave: an unknown id is no error and leaves nothing behind either. */
    method Leave(id: string) returns (ok: bool)
      requires Valid()
      modifies this
      ensures Valid() && View() == Next(old(View()), Op.Leave(id)) && ok == IsUuid(id)
    {
      RunStaysConsistent(View(), Op.Leave(id));
      if !IsUuid(id) {
        return false;
      }
      if id !in days {
        return true;
      }
      ContentsWithout(hits, id);
      days := days - {id};
      hits := hits - {id};
      return true;
    }

    /** The scores of all participants but those without one, each once. */
    method CollectScores(id: string, kind: Kind, metric: Metric) returns (scores: seq<int>, own: Option<int>)
      requires Framed(hits)
      ensures own == ScoreIn(View(), id, kind, metric) && exists who :: Listed(View(), kind, metric, scores, who, {})
    {
      scores, own := [], None;
      ghost var who := [];
      var pending := days.Keys;
      while pending != {}
        invariant pending <= days.Keys && Listed(View(), kind, metric, scores, who, pending)
        invariant own == if id in pending then None else ScoreIn(View(), id, kind, metric)
        decreases |pending|
      {
        assert (forall k :: k !in pending) ==> pending == {};
        var pid :| pid in pending;
        var score := Score(days[pid], kind, metric);
        ListedStep(View(), kind, metric, scores, who, pending, pid);
        pending := pending - {pid};
        if score == None {
          continue;
        }
        scores, who := scores + [score.value], who + [pid];
        if pid == id {
          own := score;
        }
      }
    }

    /** Rank. */
    method Rank(id: string, kind: Kind, metric: Metric) returns (r: Standing)
      requires Valid()
      ensures r == RankOf(View(), id, kind, metric, crowd)
    {
      if metric == Cost && kind == AllTime {
        return Finish(Unavailable, 0, 0, crowd);
      }
      var scores, own := CollectScores(id, kind, metric);
      ghost var who :| Listed(View(), kind, metric, scores, who, {});
      CountMatches(View(), kind, metric, scores, who);
      var n := |scores|;
      if n < crowd {
        return Finish(Insufficient, 0, n, crowd);
      }
      if own == None {
        return Finish(NotRanked, 0, n, crowd);
      }
      AboveMatches(View(), kind, metric, scores, who, own.value);
      var rank, _ := CompetitionRank(scores, own.value);
      return Finish(Ok, rank, n, crowd);
    }
  }

  lemma RunStaysConsistent(s: State, op: Op)
    requires Consistent(s)
    ensures Consistent(Next(s, op))
  {
  }
}
