/** Ranking trade routes: the one-pass best and runner-up, and which origins' rows a search sees. */
module RouteRanking {
  import opened Options

  // ----- Best and runner-up -----

  /** One candidate's figures, all computed from the same route and load. */
  datatype Pick = Pick(route: int, profit: real, rate: real, scu: int)

  /** A candidate's figures, or None when it does not qualify: filtered out, nothing to load, or no time estimate. */
  type Evaluation = Option<Pick>

  datatype RankBy = ByProfit | ByRate

  function Score(pick: Pick, rankBy: RankBy): real {
    if rankBy == ByRate then pick.rate else pick.profit
  }

  function Qualifying(candidates: seq<Evaluation>): seq<Pick> {
    if candidates == [] then []
    else
      var last := candidates[|candidates| - 1];
      Qualifying(candidates[..|candidates| - 1]) + (if last.Some? then [last.value] else [])
  }

  /** The stable sort by falling score: a later candidate goes after every earlier one that scores as much. */
  function InsertLast(sorted: seq<Pick>, pick: Pick, rankBy: RankBy): seq<Pick> {
    if sorted == [] then [pick]
    else if Score(pick, rankBy) > Score(sorted[0], rankBy) then [pick] + sorted
    else [sorted[0]] + InsertLast(sorted[1..], pick, rankBy)
  }

  function Ranked(picks: seq<Pick>, rankBy: RankBy): seq<Pick> {
    if picks == [] then [] else InsertLast(Ranked(picks[..|picks| - 1], rankBy), picks[|picks| - 1], rankBy)
  }

  function First(ranked: seq<Pick>): Option<Pick> {
    if |ranked| > 0 then Some(ranked[0]) else None
  }

  function Second(ranked: seq<Pick>): Option<Pick> {
    if |ranked| > 1 then Some(ranked[1]) else None
  }

  // ----- That Ranked is the stable descending sort -----

  ghost predicate Descending(picks: seq<Pick>, rankBy: RankBy) {
    forall i, j :: 0 <= i < j < |picks| ==> Score(picks[i], rankBy) >= Score(picks[j], rankBy)
  }

  /** The picks with a given score, in order. */
  function Scoring(picks: seq<Pick>, score: real, rankBy: RankBy): seq<Pick> {
    if picks == [] then []
    else OnlyIf(picks[0], score, rankBy) + Scoring(picks[1..], score, rankBy)
  }

  lemma {:induction false} InsertLastKeeps(sorted: seq<Pick>, pick: Pick, rankBy: RankBy)
    ensures multiset(InsertLast(sorted, pick, rankBy)) == multiset(sorted) + multiset{pick}
  {
    if sorted != [] {
      InsertLastKeeps(sorted[1..], pick, rankBy);
      assert sorted == [sorted[0]] + sorted[1..];
    }
  }

  ghost predicate AllAtMost(picks: seq<Pick>, score: real, rankBy: RankBy) {
    forall k :: 0 <= k < |picks| ==> Score(picks[k], rankBy) <= score
  }

  lemma {:induction false} InsertLastAtMost(sorted: seq<Pick>, pick: Pick, score: real, rankBy: RankBy)
    requires AllAtMost(sorted, score, rankBy) && Score(pick, rankBy) <= score
    ensures AllAtMost(InsertLast(sorted, pick, rankBy), score, rankBy)
  {
    if sorted != [] {
      InsertLastAtMost(sorted[1..], pick, score, rankBy);
    }
  }

  lemma ConsDescending(head: Pick, tail: seq<Pick>, rankBy: RankBy)
    requires Descending(tail, rankBy) && AllAtMost(tail, Score(head, rankBy), rankBy)
    ensures Descending([head] + tail, rankBy)
  {
  }

  lemma TailDescending(sorted: seq<Pick>, rankBy: RankBy)
    requires Descending(sorted, rankBy) && sorted != []
    ensures Descending(sorted[1..], rankBy) && AllAtMost(sorted[1..], Score(sorted[0], rankBy), rankBy)
    ensures AllAtMost(sorted, Score(sorted[0], rankBy), rankBy)
  {
  }

  lemma {:induction false} InsertLastSorts(sorted: seq<Pick>, pick: Pick, rankBy: RankBy)
    requires Descending(sorted, rankBy)
    ensures Descending(InsertLast(sorted, pick, rankBy), rankBy)
  {
    if sorted != [] {
      TailDescending(sorted, rankBy);
      if Score(pick, rankBy) > Score(sorted[0], rankBy) {
        assert AllAtMost(sorted, Score(pick, rankBy), rankBy);
        ConsDescending(pick, sorted, rankBy);
      } else {
        InsertLastSorts(sorted[1..], pick, rankBy);
        InsertLastAtMost(sorted[1..], pick, Score(sorted[0], rankBy), rankBy);
        ConsDescending(sorted[0], InsertLast(sorted[1..], pick, rankBy), rankBy);
      }
    }
  }

  function OnlyIf(pick: Pick, score: real, rankBy: RankBy): seq<Pick> {
    if Score(pick, rankBy) == score then [pick] else []
  }

  lemma ScoringCons(head: Pick, tail: seq<Pick>, score: real, rankBy: RankBy)
    ensures Scoring([head] + tail, score, rankBy) == OnlyIf(head, score, rankBy) + Scoring(tail, score, rankBy)
  {
    assert ([head] + tail)[1..] == tail;
  }

  /** Among equal scores the inserted pick comes last. */
  lemma {:induction false} InsertLastIsStable(sorted: seq<Pick>, pick: Pick, score: real, rankBy: RankBy)
    requires Descending(sorted, rankBy)
    ensures Scoring(InsertLast(sorted, pick, rankBy), score, rankBy)
         == Scoring(sorted, score, rankBy) + OnlyIf(pick, score, rankBy)
  {
    if sorted == [] {
      ScoringCons(pick, [], score, rankBy);
    } else {
      TailDescending(sorted, rankBy);
      if Score(pick, rankBy) > Score(sorted[0], rankBy) {
        ScoringCons(pick, sorted, score, rankBy);
        if Score(pick, rankBy) == score {
          NoneScore(sorted, score, rankBy);
        }
      } else {
        var head, tail := sorted[0], sorted[1..];
        ScoringCons(head, InsertLast(tail, pick, rankBy), score, rankBy);
        InsertLastIsStable(tail, pick, score, rankBy);
        Reassociate(OnlyIf(head, score, rankBy), Scoring(tail, score, rankBy), OnlyIf(pick, score, rankBy));
      }
    }
  }

  lemma Reassociate(a: seq<Pick>, b: seq<Pick>, c: seq<Pick>)
    ensures a + (b + c) == (a + b) + c
  {
  }

  lemma {:induction false} NoneScore(picks: seq<Pick>, score: real, rankBy: RankBy)
    requires forall k :: 0 <= k < |picks| ==> Score(picks[k], rankBy) != score
    ensures Scoring(picks, score, rankBy) == []
  {
    if picks != [] {
      NoneScore(picks[1..], score, rankBy);
    }
  }

  lemma {:induction false} ScoringAppend(picks: seq<Pick>, pick: Pick, score: real, rankBy: RankBy)
    ensures Scoring(picks + [pick], score, rankBy) == Scoring(picks, score, rankBy) + OnlyIf(pick, score, rankBy)
  {
    if picks == [] {
      ScoringCons(pick, [], score, rankBy);
      assert [] + [pick] == [pick] + [];
    } else {
      assert picks + [pick] == [picks[0]] + (picks[1..] + [pick]);
      ScoringCons(picks[0], picks[1..] + [pick], score, rankBy);
      ScoringAppend(picks[1..], pick, score, rankBy);
    }
  }

  /** Ranked is a permutation, falls in score, and keeps candidates of equal score in their order. */
  lemma {:induction false} RankedIsStableSort(picks: seq<Pick>, rankBy: RankBy)
    ensures Descending(Ranked(picks, rankBy), rankBy)
    ensures multiset(Ranked(picks, rankBy)) == multiset(picks)
    ensures forall score :: Scoring(Ranked(picks, rankBy), score, rankBy) == Scoring(picks, score, rankBy)
  {
    if picks != [] {
      var before, last := picks[..|picks| - 1], picks[|picks| - 1];
      RankedIsStableSort(before, rankBy);
      InsertLastSorts(Ranked(before, rankBy), last, rankBy);
      InsertLastKeeps(Ranked(before, rankBy), last, rankBy);
      assert picks == before + [last];
      forall score ensures Scoring(Ranked(picks, rankBy), score, rankBy) == Scoring(picks, score, rankBy) {
        InsertLastIsStable(Ranked(before, rankBy), last, score, rankBy);
        ScoringAppend(before, last, score, rankBy);
      }
    }
  }

  /** Inserting at the end changes the first two exactly as the loop's two comparisons do. */
  lemma InsertLastTopTwo(sorted: seq<Pick>, pick: Pick, rankBy: RankBy)
    requires Descending(sorted, rankBy)
    ensures var after := InsertLast(sorted, pick, rankBy);
            if First(sorted).None? || Score(pick, rankBy) > Score(First(sorted).value, rankBy) then
              First(after) == Some(pick) && Second(after) == First(sorted)
            else if Second(sorted).None? || Score(pick, rankBy) > Score(Second(sorted).value, rankBy) then
              First(after) == First(sorted) && Second(after) == Some(pick)
            else
              First(after) == First(sorted) && Second(after) == Second(sorted)
  {
    if |sorted| > 0 {
      var rest := InsertLast(sorted[1..], pick, rankBy);
      assert rest != [];
      assert |sorted| > 1 ==> sorted[1..][0] == sorted[1];
    }
  }

  // ----- The same among the candidates themselves -----

  /**
   * Of all candidates that qualify, leaving out the one at skip, the one at i has the highest profit, or
   * the highest rate, and is the earliest that has it.
   */
  ghost predicate Leads(candidates: seq<Evaluation>, i: int, skip: int, rankBy: RankBy) {
    && 0 <= i < |candidates| && i != skip && candidates[i].Some?
    && forall j :: 0 <= j < |candidates| && j != skip && candidates[j].Some? ==>
         Trails(candidates[j].value, candidates[i].value, j < i, rankBy)
  }

  predicate Trails(pick: Pick, best: Pick, earlier: bool, rankBy: RankBy) {
    match rankBy
    case ByProfit => if earlier then pick.profit < best.profit else pick.profit <= best.profit
    case ByRate => if earlier then pick.rate < best.rate else pick.rate <= best.rate
  }

  /** The pick is the candidate that leads, and there is none when no candidate qualifies. */
  ghost predicate IsLeader(candidates: seq<Evaluation>, pick: Option<Pick>, at: int, skip: int, rankBy: RankBy) {
    match pick
    case None => at == -1 && forall j :: 0 <= j < |candidates| && j != skip ==> candidates[j].None?
    case Some(p) => Leads(candidates, at, skip, rankBy) && candidates[at] == Some(p)
  }

  ghost predicate BestTwo(candidates: seq<Evaluation>, best: Option<Pick>, runnerUp: Option<Pick>, rankBy: RankBy) {
    exists i, j :: IsLeader(candidates, best, i, -1, rankBy) && IsLeader(candidates, runnerUp, j, i, rankBy)
  }

  /** One more candidate that scores no more, or none, leaves the leader. */
  lemma StillLeads(candidates: seq<Evaluation>, pick: Option<Pick>, at: int, skip: int, rankBy: RankBy)
    requires candidates != [] && IsLeader(candidates[..|candidates| - 1], pick, at, skip, rankBy)
    requires var last := candidates[|candidates| - 1];
             last.Some? ==> pick.Some? && Score(last.value, rankBy) <= Score(pick.value, rankBy)
    ensures IsLeader(candidates, pick, at, skip, rankBy)
  {
    var before := candidates[..|candidates| - 1];
    assert forall j :: 0 <= j < |before| ==> candidates[j] == before[j];
  }

  /** One that scores more, or is the first, takes the lead. */
  lemma TakesLead(candidates: seq<Evaluation>, pick: Option<Pick>, at: int, skip: int, rankBy: RankBy)
    requires candidates != [] && IsLeader(candidates[..|candidates| - 1], pick, at, skip, rankBy) && skip < |candidates| - 1
    requires var last := candidates[|candidates| - 1];
             last.Some? && (pick.Some? ==> Score(last.value, rankBy) > Score(pick.value, rankBy))
    ensures IsLeader(candidates, candidates[|candidates| - 1], |candidates| - 1, skip, rankBy)
  {
    var before := candidates[..|candidates| - 1];
    assert forall j :: 0 <= j < |before| ==> candidates[j] == before[j];
  }

  /** And leaves the old one leading the others. */
  lemma LeadsOthers(candidates: seq<Evaluation>, pick: Option<Pick>, at: int, rankBy: RankBy)
    requires candidates != [] && IsLeader(candidates[..|candidates| - 1], pick, at, -1, rankBy)
    ensures IsLeader(candidates, pick, at, |candidates| - 1, rankBy)
  {
    var before := candidates[..|candidates| - 1];
    assert forall j :: 0 <= j < |before| ==> candidates[j] == before[j];
  }

  /** The first two of the ranking are the candidate that leads and the one that leads the others. */
  lemma {:induction false} RankedTopTwo(candidates: seq<Evaluation>, rankBy: RankBy) returns (i: int, j: int)
    ensures var ranked := Ranked(Qualifying(candidates), rankBy);
            IsLeader(candidates, First(ranked), i, -1, rankBy) && IsLeader(candidates, Second(ranked), j, i, rankBy)
  {
    i, j := -1, -1;
    if candidates != [] {
      var n := |candidates| - 1;
      i, j := RankedTopTwo(candidates[..n], rankBy);
      NextCandidate(candidates, n, rankBy);
      assert candidates[..n + 1] == candidates;
      var ranked := Ranked(Qualifying(candidates[..n]), rankBy);
      if candidates[n].Some? && (First(ranked).None? || Score(candidates[n].value, rankBy) > Score(First(ranked).value, rankBy)) {
        TakesLead(candidates, First(ranked), i, -1, rankBy);
        LeadsOthers(candidates, First(ranked), i, rankBy);
        i, j := n, i;
      } else {
        StillLeads(candidates, First(ranked), i, -1, rankBy);
        if candidates[n].Some? && (Second(ranked).None? || Score(candidates[n].value, rankBy) > Score(Second(ranked).value, rankBy)) {
          TakesLead(candidates, Second(ranked), j, i, rankBy);
          j := n;
        } else {
          StillLeads(candidates, Second(ranked), j, i, rankBy);
        }
      }
    }
  }

  /** The first two of the stable descending sort, each with the figures of its own route; None when nothing qualifies. */
  method FindBestRoute(candidates: seq<Evaluation>, rankBy: RankBy) returns (best: Option<Pick>, runnerUp: Option<Pick>)
    ensures best == First(Ranked(Qualifying(candidates), rankBy))
    ensures runnerUp == Second(Ranked(Qualifying(candidates), rankBy))
    ensures BestTwo(candidates, best, runnerUp, rankBy)
  {
    ghost var i, j := RankedTopTwo(candidates, rankBy);
    var bestRoute, runnerUpRoute: Option<int> := None, None;
    var bestScore, runnerUpScore: Option<real> := None, None;
    var bestProfit, bestRate, bestScu := 0.0, 0.0, 0;
    var runnerUpProfit, runnerUpRate, runnerUpScu := 0.0, 0.0, 0;
    for i := 0 to |candidates|
      invariant IsPick(First(Ranked(Qualifying(candidates[..i]), rankBy)), rankBy, bestRoute, bestScore, bestProfit, bestRate, bestScu)
      invariant IsPick(Second(Ranked(Qualifying(candidates[..i]), rankBy)), rankBy,
                       runnerUpRoute, runnerUpScore, runnerUpProfit, runnerUpRate, runnerUpScu)
    {
      NextCandidate(candidates, i, rankBy);
      if candidates[i].None? {
        continue;
      }
      var Pick(route, profit, rate, scu) := candidates[i].value;
      var score := if rankBy == ByRate then rate else profit;
      if bestScore.None? || score > bestScore.value {
        runnerUpRoute, runnerUpScore := bestRoute, bestScore;
        runnerUpProfit, runnerUpRate, runnerUpScu := bestProfit, bestRate, bestScu;
        bestRoute, bestScore := Some(route), Some(score);
        bestProfit, bestRate, bestScu := profit, rate, scu;
      } else if runnerUpScore.None? || score > runnerUpScore.value {
        runnerUpRoute, runnerUpScore := Some(route), Some(score);
        runnerUpProfit, runnerUpRate, runnerUpScu := profit, rate, scu;
      }
    }
    assert candidates[..|candidates|] == candidates;
    best := if bestRoute.None? then None else Some(Pick(bestRoute.value, bestProfit, bestRate, bestScu));
    runnerUp := if runnerUpRoute.None? then None else Some(Pick(runnerUpRoute.value, runnerUpProfit, runnerUpRate, runnerUpScu));
  }

  /** The separate variables hold this pick, or nothing. */
  predicate IsPick(
    pick: Option<Pick>, rankBy: RankBy, route: Option<int>, score: Option<real>, profit: real, rate: real, scu: int
  ) {
    match pick
    case None => route.None? && score.None?
    case Some(p) => route == Some(p.route) && score == Some(Score(p, rankBy)) && p.profit == profit && p.rate == rate && p.scu == scu
  }

  lemma NextCandidate(candidates: seq<Evaluation>, i: nat, rankBy: RankBy)
    requires i < |candidates|
    ensures var before, after := Ranked(Qualifying(candidates[..i]), rankBy), Ranked(Qualifying(candidates[..i + 1]), rankBy);
            match candidates[i]
            case None => after == before
            case Some(pick) =>
              if First(before).None? || Score(pick, rankBy) > Score(First(before).value, rankBy) then
                First(after) == Some(pick) && Second(after) == First(before)
              else if Second(before).None? || Score(pick, rankBy) > Score(Second(before).value, rankBy) then
                First(after) == First(before) && Second(after) == Some(pick)
              else
                First(after) == First(before) && Second(after) == Second(before)
  {
    var picks := Qualifying(candidates[..i]);
    assert candidates[..i + 1][..i] == candidates[..i];
    if candidates[i].Some? {
      var pick := candidates[i].value;
      assert (picks + [pick])[..|picks|] == picks;
      RankedIsStableSort(picks, rankBy);
      InsertLastTopTwo(Ranked(picks, rankBy), pick, rankBy);
    } else {
      assert Qualifying(candidates[..i + 1]) == picks + [] == picks;
    }
  }

  // ----- Which origins' rows a search sees -----

  const MAX_LIVE_ROUTE_FETCHES: nat := 8

  function Uncached<R>(origins: seq<int>, cached: map<int, seq<R>>): seq<int> {
    if origins == [] then []
    else
      var last := origins[|origins| - 1];
      Uncached(origins[..|origins| - 1], cached) + (if last in cached then [] else [last])
  }

  /** The rows of the origins that have any, in order. */
  function RowsOf<R>(origins: seq<int>, known: map<int, seq<R>>): seq<R> {
    if origins == [] then []
    else RowsOf(origins[..|origins| - 1], known)
         + (if origins[|origins| - 1] in known then known[origins[|origins| - 1]] else [])
  }

  function Known<R>(origins: seq<int>, known: map<int, seq<R>>): nat {
    if origins == [] then 0
    else Known(origins[..|origins| - 1], known) + (if origins[|origins| - 1] in known then 1 else 0)
  }

  /** The origins that get a live call: the first few of those not cached. */
  function ToFetch<R>(origins: seq<int>, cached: map<int, seq<R>>): (r: seq<int>)
    ensures |r| <= 8 && r <= Uncached(origins, cached) && (|r| < 8 ==> r == Uncached(origins, cached))
  {
    var uncached := Uncached(origins, cached);
    if |uncached| > MAX_LIVE_ROUTE_FETCHES then uncached[..MAX_LIVE_ROUTE_FETCHES] else uncached
  }

  /** Rows come in the order of the origins: one origin's own, after those of the origins before it. */
  lemma {:induction false} RowsByOrigin<R>(before: seq<int>, origin: int, after: seq<int>, known: map<int, seq<R>>)
    ensures RowsOf(before + [origin] + after, known)
         == RowsOf(before, known) + (if origin in known then known[origin] else []) + RowsOf(after, known)
  {
    var all := before + [origin] + after;
    if after == [] {
      assert all[..|all| - 1] == before;
    } else {
      RowsByOrigin(before, origin, after[..|after| - 1], known);
      assert all[..|all| - 1] == before + [origin] + after[..|after| - 1];
    }
  }

  /** And so do the origins without rows. */
  lemma {:induction false} UncachedInOrder<R>(before: seq<int>, origin: int, after: seq<int>, cached: map<int, seq<R>>)
    ensures Uncached(before + [origin] + after, cached)
         == Uncached(before, cached) + (if origin in cached then [] else [origin]) + Uncached(after, cached)
  {
    var all := before + [origin] + after;
    if after == [] {
      assert all[..|all| - 1] == before;
    } else {
      UncachedInOrder(before, origin, after[..|after| - 1], cached);
      assert all[..|all| - 1] == before + [origin] + after[..|after| - 1];
    }
  }

  lemma {:induction false} KnownAndUncached<R>(origins: seq<int>, cached: map<int, seq<R>>)
    ensures Known(origins, cached) == |origins| - |Uncached(origins, cached)|
  {
    if origins != [] {
      KnownAndUncached(origins[..|origins| - 1], cached);
    }
  }

  /** The cached origins' rows, and the origins that are not cached. */
  method SplitCached<R>(origins: seq<int>, cached: map<int, seq<R>>) returns (rows: seq<R>, uncached: seq<int>)
    ensures rows == RowsOf(origins, cached) && uncached == Uncached(origins, cached)
  {
    rows, uncached := [], [];
    for i := 0 to |origins|
      invariant rows == RowsOf(origins[..i], cached) && uncached == Uncached(origins[..i], cached)
    {
      assert origins[..i + 1][..i] == origins[..i];
      if origins[i] in cached {
        rows := rows + cached[origins[i]];
      } else {
        uncached := uncached + [origins[i]];
      }
    }
    assert origins[..|origins|] == origins;
  }

  /** The rows of the live calls that succeeded, how many did, and the origins whose call failed. */
  method CollectLive<R>(toFetch: seq<int>, live: map<int, seq<R>>) returns (rows: seq<R>, succeeded: nat, failures: seq<int>)
    ensures rows == RowsOf(toFetch, live) && succeeded == Known(toFetch, live) && failures == Uncached(toFetch, live)
  {
    rows, succeeded, failures := [], 0, [];
    for i := 0 to |toFetch|
      invariant rows == RowsOf(toFetch[..i], live) && succeeded == Known(toFetch[..i], live)
      invariant failures == Uncached(toFetch[..i], live)
    {
      assert toFetch[..i + 1][..i] == toFetch[..i];
      if toFetch[i] !in live {
        failures := failures + [toFetch[i]];
        continue;
      }
      rows := rows + live[toFetch[i]];
      succeeded := succeeded + 1;
    }
    assert toFetch[..|toFetch|] == toFetch;
  }

  /**
   * Rows from every cached origin and from each live call that succeeded, live holding the rows of
   * those calls. A failure, the first one, is the answer only when there are no rows at all.
   */
  method RouteRowsFor<R(==)>(origins: seq<int>, cached: map<int, seq<R>>, live: map<int, seq<R>>)
    returns (result: Result<(seq<R>, nat), int>)
    ensures var toFetch := ToFetch(origins, cached);
            var rows := RowsOf(origins, cached) + RowsOf(toFetch, live);
            if Uncached(toFetch, live) != [] && rows == [] then
              result == Err(Uncached(toFetch, live)[0])
            else
              result == Ok((rows, Known(origins, cached) + Known(toFetch, live)))
  {
    var cachedRows, uncached := SplitCached(origins, cached);
    KnownAndUncached(origins, cached);
    var toFetch := if |uncached| > MAX_LIVE_ROUTE_FETCHES then uncached[..MAX_LIVE_ROUTE_FETCHES] else uncached;
    assert toFetch == ToFetch(origins, cached);
    var liveRows, succeeded, failures := CollectLive(toFetch, live);
    var rows, searched := cachedRows + liveRows, |origins| - |uncached| + succeeded;
    assert searched == Known(origins, cached) + Known(toFetch, live);
    if failures != [] && rows == [] {
      return Err(failures[0]);
    }
    result := Ok((rows, searched));
  }
}
