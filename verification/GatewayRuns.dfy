/**
 * What the gateway did over a whole run: why each paid call was made, and how far the in-flight
 * count can go past its limit.
 */
module GatewayRuns {
  import opened Options
  import opened LlmGateway

  // ----- Runs, one event longer -----

  lemma {:induction false} LastEvent(s: State, c: Settings, before: seq<Event>, e: Event)
    ensures Possible(s, c, before + [e]) <==> Possible(s, c, before) && Enabled(After(s, c, before), e)
    ensures Possible(s, c, before + [e]) ==> After(s, c, before + [e]) == Apply(After(s, c, before), c, e)
    decreases |before|
  {
    var events := before + [e];
    if before == [] {
      assert events == [e] && [e][1..] == [];
    } else {
      assert events[0] == before[0] && events[1..] == before[1..] + [e];
      if Enabled(s, before[0]) {
        LastEvent(Apply(s, c, before[0]), c, before[1..], e);
      }
    }
  }

  /** Cutting a run short leaves a run. */
  lemma {:induction false} Prefix(s: State, c: Settings, events: seq<Event>, n: nat)
    requires Possible(s, c, events) && n <= |events|
    ensures Possible(s, c, events[..n])
    decreases |events|
  {
    if n > 0 {
      assert events[..n][1..] == events[1..][..n - 1];
      Prefix(Apply(s, c, events[0]), c, events[1..], n - 1);
    }
  }

  // ----- Why a paid call was made -----

  /** The request turned from heket to the fallback: skipped, overflowed with budget left, or failed by heket. */
  ghost predicate TurnsAway(s: State, c: Settings, e: Event, r: Request, reason: Reason, sent: bool) {
    match e
    case Arrive(q, now) => q == r && SkipHeketReason(s, c, now) == Some(reason) && reason != Overflow && !sent
    case OverflowBudgetRead(q, spend) => q == r && !BudgetExhausted(c, spend) && reason == Overflow && !sent
    case HeketFails(q, why, _) => q == r && why == reason && sent
    case _ => false
  }

  /** The i-th event of the run turned the request away, in the state the run had reached by then. */
  ghost predicate TurnedAt(c: Settings, events: seq<Event>, i: nat, r: Request, reason: Reason, sent: bool) {
    && i < |events| && Possible(START, c, events[..i])
    && TurnsAway(After(START, c, events[..i]), c, events[i], r, reason, sent)
  }

  /** And the j-th, later, read a day's spend of seen below the cap. */
  ghost predicate PaidAt(c: Settings, events: seq<Event>, i: nat, j: nat, r: Request, reason: Reason, sent: bool, seen: real) {
    && i < j < |events| && TurnedAt(c, events, i, r, reason, sent)
    && events[j] == FallbackBudgetRead(r, seen) && !BudgetExhausted(c, seen)
  }

  ghost predicate Explained(c: Settings, events: seq<Event>, r: Request, phase: Phase) {
    match phase
    case ReadingFallbackBudget(reason, sent) => exists i :: TurnedAt(c, events, i, r, reason, sent)
    case HostedCall(reason, sent, seen) => exists i, j :: PaidAt(c, events, i, j, r, reason, sent, seen)
    case HostedDone(reason, sent, seen) => exists i, j :: PaidAt(c, events, i, j, r, reason, sent, seen)
    case _ => true
  }

  lemma TurnedLonger(c: Settings, before: seq<Event>, e: Event, i: nat, r: Request, reason: Reason, sent: bool)
    requires TurnedAt(c, before, i, r, reason, sent)
    ensures TurnedAt(c, before + [e], i, r, reason, sent)
  {
    assert (before + [e])[..i] == before[..i];
  }

  lemma ExplainedLonger(c: Settings, before: seq<Event>, e: Event, r: Request, phase: Phase)
    requires Explained(c, before, r, phase)
    ensures Explained(c, before + [e], r, phase)
  {
    var events := before + [e];
    match phase
    case ReadingFallbackBudget(reason, sent) =>
      var i :| TurnedAt(c, before, i, r, reason, sent);
      TurnedLonger(c, before, e, i, r, reason, sent);
    case HostedCall(reason, sent, seen) =>
      var i, j :| PaidAt(c, before, i, j, r, reason, sent, seen);
      TurnedLonger(c, before, e, i, r, reason, sent);
      assert PaidAt(c, events, i, j, r, reason, sent, seen);
    case HostedDone(reason, sent, seen) =>
      var i, j :| PaidAt(c, before, i, j, r, reason, sent, seen);
      TurnedLonger(c, before, e, i, r, reason, sent);
      assert PaidAt(c, events, i, j, r, reason, sent, seen);
    case _ =>
  }

  lemma ExplainedByLast(c: Settings, before: seq<Event>, e: Event, r: Request)
    requires Possible(START, c, before) && Enabled(After(START, c, before), e)
    requires IsIn(After(START, c, before), r) ==> Explained(c, before, r, After(START, c, before).phases[r])
    requires IsIn(Apply(After(START, c, before), c, e), r)
    ensures Explained(c, before + [e], r, Apply(After(START, c, before), c, e).phases[r])
  {
    var s, events := After(START, c, before), before + [e];
    var phase := Apply(s, c, e).phases[r];
    assert events[..|before|] == before;
    if IsIn(s, r) {
      ExplainedLonger(c, before, e, r, s.phases[r]);
    }
    match phase
    case ReadingFallbackBudget(reason, sent) =>
      if !(IsIn(s, r) && s.phases[r] == phase) {
        assert TurnedAt(c, events, |before|, r, reason, sent);
      }
    case HostedCall(reason, sent, seen) =>
      if s.phases[r] != phase {
        assert s.phases[r] == ReadingFallbackBudget(reason, sent);
        var i :| TurnedAt(c, before, i, r, reason, sent);
        TurnedLonger(c, before, e, i, r, reason, sent);
        assert PaidAt(c, events, i, |before|, r, reason, sent, seen);
      }
    case HostedDone(reason, sent, seen) =>
      if s.phases[r] != phase {
        assert s.phases[r] == HostedCall(reason, sent, seen);
        var i, j :| PaidAt(c, events, i, j, r, reason, sent, seen);
      }
    case _ =>
  }

  lemma {:induction false} AlwaysExplained(c: Settings, events: seq<Event>, r: Request)
    requires Possible(START, c, events) && IsIn(After(START, c, events), r)
    ensures Explained(c, events, r, After(START, c, events).phases[r])
    decreases |events|
  {
    if events != [] {
      var before, e := events[..|events| - 1], events[|events| - 1];
      assert events == before + [e];
      LastEvent(START, c, before, e);
      if IsIn(After(START, c, before), r) {
        AlwaysExplained(c, before, r);
      }
      ExplainedByLast(c, before, e, r);
    }
  }

  /**
   * Every hosted call has its history: heket was skipped, overflowed with budget to spare, or failed
   * before any byte, for the very reason the call carries; and after that the day's spend was read,
   * below the cap.
   */
  lemma HostedCallHistory(c: Settings, events: seq<Event>, r: Request) returns (i: nat, j: nat)
    requires Possible(START, c, events) && IsIn(After(START, c, events), r)
    requires After(START, c, events).phases[r].HostedCall? || After(START, c, events).phases[r].HostedDone?
    ensures var p := After(START, c, events).phases[r]; PaidAt(c, events, i, j, r, p.reason, p.sent, p.seen)
  {
    AlwaysExplained(c, events, r);
    var p := After(START, c, events).phases[r];
    i, j :| PaidAt(c, events, i, j, r, p.reason, p.sent, p.seen);
  }

  // ----- An overflow with the budget spent -----

  predicate OnHeket(phase: Phase) {
    phase.SendingToHeket? || phase.Streaming? || phase.BodyFinished? || phase.HeketDone?
  }

  predicate Failed(phase: Phase) {
    phase.NoBackend? || ((phase.ReadingFallbackBudget? || phase.HostedCall? || phase.HostedDone?) && phase.sent)
  }

  /** Once a request is on heket it stays there, or heket has failed it. */
  lemma {:induction false} HeketFirst(s: State, c: Settings, events: seq<Event>, r: Request)
    requires Possible(s, c, events) && IsIn(s, r) && (OnHeket(s.phases[r]) || Failed(s.phases[r]))
    ensures IsIn(After(s, c, events), r) && (OnHeket(After(s, c, events).phases[r]) || Failed(After(s, c, events).phases[r]))
    decreases |events|
  {
    if events != [] {
      HeketFirst(Apply(s, c, events[0]), c, events[1..], r);
    }
  }

  lemma {:induction false} SplitRun(s: State, c: Settings, events: seq<Event>, n: nat)
    requires Possible(s, c, events) && n <= |events|
    ensures Possible(s, c, events[..n]) && Possible(After(s, c, events[..n]), c, events[n..])
    ensures After(After(s, c, events[..n]), c, events[n..]) == After(s, c, events)
    decreases |events|
  {
    if n > 0 {
      assert events[..n][1..] == events[1..][..n - 1] && events[n..] == events[1..][n - 1..];
      SplitRun(Apply(s, c, events[0]), c, events[1..], n - 1);
    } else {
      assert events[n..] == events;
    }
  }

  /** An overflow that found the day's budget spent is never paid for unless heket itself failed it first. */
  lemma SpentOverflowIsQueued(c: Settings, events: seq<Event>, m: nat, r: Request, spend: real)
    requires Possible(START, c, events) && m < |events|
    requires events[m] == OverflowBudgetRead(r, spend) && BudgetExhausted(c, spend)
    ensures IsIn(After(START, c, events), r)
    ensures var p := After(START, c, events).phases[r];
            p.HostedCall? || p.HostedDone? ==> exists i :: i > m && TurnedAt(c, events, i, r, p.reason, true)
  {
    SplitRun(START, c, events, m);
    var s, rest := After(START, c, events[..m]), events[m..];
    assert rest[0] == events[m];
    HeketFirst(Apply(s, c, rest[0]), c, rest[1..], r);
    var p := After(START, c, events).phases[r];
    if p.HostedCall? || p.HostedDone? {
      var i, j := HostedCallHistory(c, events, r);
      FailsAfterOverflow(c, events, i, m, r);
    }
  }

  /** A request that heket fails has its overflow, if any, behind it. */
  lemma FailsAfterOverflow(c: Settings, events: seq<Event>, i: nat, m: nat, r: Request)
    requires Possible(START, c, events) && i < |events| && m < |events|
    requires events[i].HeketFails? && events[i].request == r && events[m].OverflowBudgetRead? && events[m].request == r
    ensures m < i
  {
    SplitRun(START, c, events, i);
    SplitRun(START, c, events, m);
    assert events[i..][0] == events[i] && events[m..][0] == events[m];
    if i < m {
      assert events[..m][..i] == events[..i];
      SplitRun(START, c, events[..m], i);
      HeketFirst(After(START, c, events[..i]), c, events[..m][i..], r);
    }
  }

  // ----- How far past its limit the in-flight count goes -----

  function SendingOf(phases: map<Request, Phase>): set<Request> {
    set r | r in phases && phases[r].SendingToHeket?
  }

  /** At no point are more than k requests on their way to heket. */
  ghost predicate FewSending(s: State, c: Settings, events: seq<Event>, k: nat)
    requires Possible(s, c, events)
    decreases |events|
  {
    |SendingOf(s.phases)| <= k && (events != [] ==> FewSending(Apply(s, c, events[0]), c, events[1..], k))
  }

  predicate SpentOverflow(c: Settings, e: Event) {
    e.OverflowBudgetRead? && BudgetExhausted(c, e.spend)
  }

  /** No overflow finds the budget spent. */
  ghost predicate NoneSpent(c: Settings, events: seq<Event>) {
    forall i :: 0 <= i < |events| ==> !SpentOverflow(c, events[i])
  }

  lemma SendingAfter(phases: map<Request, Phase>, r: Request, to: Phase)
    ensures |SendingOf(phases[r := to])| == |SendingOf(phases)|
         - (if r in phases && phases[r].SendingToHeket? then 1 else 0) + (if to.SendingToHeket? then 1 else 0)
  {
    var before, after := SendingOf(phases), SendingOf(phases[r := to]);
    SizeWithout(before, r);
    SizeWithout(after, r);
    assert after - {r} == before - {r};
  }

  lemma {:induction false} StaysUnder(s: State, c: Settings, events: seq<Event>, k: nat)
    requires c.llmMaxInflight > 0 && Possible(s, c, events) && FewSending(s, c, events, k) && NoneSpent(c, events)
    requires s.inflight + |SendingOf(s.phases)| <= c.llmMaxInflight - 1 + k
    ensures After(s, c, events).inflight <= c.llmMaxInflight - 1 + k
    decreases |events|
  {
    if events != [] {
      var e, s' := events[0], Apply(s, c, events[0]);
      if !e.ProbeDown? && !e.ProbeUp? {
        SendingAfter(s.phases, e.request, s'.phases[e.request]);
      }
      assert !SpentOverflow(c, e) && |SendingOf(s'.phases)| <= k;
      StaysUnder(s', c, events[1..], k);
    }
  }

  /**
   * Checking and sending are not one step, so what bounds the in-flight count is the limit and the
   * requests sent at the same time: with one at a time, and no overflow queued, it is the limit.
   */
  lemma InflightIsBounded(c: Settings, events: seq<Event>, k: nat)
    requires c.llmMaxInflight > 0 && k > 0 && Possible(START, c, events)
    requires FewSending(START, c, events, k) && NoneSpent(c, events)
    ensures After(START, c, events).inflight <= c.llmMaxInflight - 1 + k
  {
    assert SendingOf(START.phases) == {};
    StaysUnder(START, c, events, k);
  }

  /** Requests below n have arrived and gone to heket, which has accepted those below k. */
  ghost predicate AllSent(s: State, n: nat, k: nat) {
    && s.inflight == k <= n && s.downUntil == At(0.0)
    && (forall r: Request :: r in s.phases <==> r < n)
    && forall r :: r in s.phases ==> s.phases[r] == if r < k then Streaming else SendingToHeket
  }

  predicate InRange(r: Request, lo: nat, hi: nat) {
    lo <= r < hi
  }

  function Range(lo: nat, hi: nat): set<Request> {
    set r: Request | r < hi && InRange(r, lo, hi)
  }

  lemma {:induction false} RangeSize(lo: nat, hi: nat)
    requires lo <= hi
    ensures |Range(lo, hi)| == hi - lo
    decreases hi
  {
    if lo < hi {
      RangeSize(lo, hi - 1);
      SizeWithout(Range(lo, hi), hi - 1);
      assert Range(lo, hi) - {hi - 1} == Range(lo, hi - 1);
    } else {
      assert Range(lo, hi) == {};
    }
  }

  lemma AllSentSending(s: State, n: nat, k: nat)
    requires AllSent(s, n, k)
    ensures |SendingOf(s.phases)| == n - k
  {
    RangeSize(k, n);
    assert SendingOf(s.phases) == Range(k, n);
  }

  lemma Prepended(s: State, c: Settings, e: Event, events: seq<Event>, k: nat)
    requires Enabled(s, e) && Possible(Apply(s, c, e), c, events) && FewSending(Apply(s, c, e), c, events, k)
    requires |SendingOf(s.phases)| <= k
    ensures Possible(s, c, [e] + events) && FewSending(s, c, [e] + events, k)
    ensures NoneSpent(c, events) && !SpentOverflow(c, e) ==> NoneSpent(c, [e] + events)
    ensures After(s, c, [e] + events) == After(Apply(s, c, e), c, events)
  {
    assert ([e] + events)[1..] == events;
  }

  /** Heket accepts them all. */
  lemma {:induction false} AllAccepted(s: State, c: Settings, n: nat, a: nat, k: nat) returns (events: seq<Event>)
    requires AllSent(s, n, a) && n - a <= k
    ensures Possible(s, c, events) && FewSending(s, c, events, k) && NoneSpent(c, events) && After(s, c, events).inflight == n
    decreases n - a
  {
    events := [];
    AllSentSending(s, n, a);
    if a < n {
      var e := HeketAccepts(a);
      var rest := AllAccepted(Apply(s, c, e), c, n, a + 1, k);
      Prepended(s, c, e, rest, k);
      events := [e] + rest;
    }
  }

  /** Requests that arrive below the limit all go to heket, and heket accepts them all. */
  lemma {:induction false} AllArrive(s: State, c: Settings, n: nat, m: nat, a: nat, k: nat) returns (events: seq<Event>)
    requires AllSent(s, m, a) && m <= n && n - a <= k && (c.llmMaxInflight == 0 || a < c.llmMaxInflight)
    ensures Possible(s, c, events) && FewSending(s, c, events, k) && NoneSpent(c, events) && After(s, c, events).inflight == n
    decreases n - m
  {
    if m == n {
      events := AllAccepted(s, c, n, a, k);
    } else {
      AllSentSending(s, m, a);
      var e := Arrive(m, 0.0);
      var rest := AllArrive(Apply(s, c, e), c, n, m + 1, a, k);
      Prepended(s, c, e, rest, k);
      events := [e] + rest;
    }
  }

  /** One by one up to the last free slot, and then k at once. */
  lemma {:induction false} FillUp(s: State, c: Settings, a: nat, k: nat) returns (events: seq<Event>)
    requires AllSent(s, a, a) && a < c.llmMaxInflight && k > 0
    ensures Possible(s, c, events) && FewSending(s, c, events, k) && NoneSpent(c, events)
    ensures After(s, c, events).inflight == c.llmMaxInflight - 1 + k
    decreases c.llmMaxInflight - a
  {
    if a == c.llmMaxInflight - 1 {
      events := AllArrive(s, c, a + k, a, a, k);
    } else {
      var arrive, accept := Arrive(a, 0.0), HeketAccepts(a);
      var s' := Apply(s, c, arrive);
      AllSentSending(s, a, a);
      AllSentSending(s', a + 1, a);
      var rest := FillUp(Apply(s', c, accept), c, a + 1, k);
      Prepended(s', c, accept, rest, k);
      Prepended(s, c, arrive, [accept] + rest, k);
      events := [arrive] + ([accept] + rest);
    }
  }

  /** The bound is reached, for any limit and any number of requests sent at once. */
  lemma InflightBoundIsReached(c: Settings, k: nat) returns (events: seq<Event>)
    requires c.llmMaxInflight > 0 && k > 0
    ensures Possible(START, c, events) && FewSending(START, c, events, k) && NoneSpent(c, events)
    ensures After(START, c, events).inflight == c.llmMaxInflight - 1 + k
  {
    events := FillUp(START, c, 0, k);
  }

  /** Whatever llm_max_inflight is, some run takes the in-flight count to any number. */
  lemma InflightHasNoBound(c: Settings, n: nat) returns (events: seq<Event>)
    ensures Possible(START, c, events) && After(START, c, events).inflight == n
  {
    events := AllArrive(START, c, n, 0, 0, n);
  }

  /** One by one, past the limit too: each overflow reads a day's spend at the cap and is queued. */
  lemma {:induction false} QueuedOneByOne(s: State, c: Settings, a: nat, n: nat) returns (events: seq<Event>)
    requires AllSent(s, a, a) && a <= n && c.llmMaxInflight > 0 && c.fallbackDailyUsdCap != 0.0
    ensures Possible(s, c, events) && FewSending(s, c, events, 1) && After(s, c, events).inflight == n
    decreases n - a
  {
    AllSentSending(s, a, a);
    events := [];
    if a < n {
      var arrive, read, accept := Arrive(a, 0.0), OverflowBudgetRead(a, c.fallbackDailyUsdCap), HeketAccepts(a);
      var s' := Apply(s, c, arrive);
      var sent := if a < c.llmMaxInflight then s' else Apply(s', c, read);
      AllSentSending(sent, a + 1, a);
      var rest := QueuedOneByOne(Apply(sent, c, accept), c, a + 1, n);
      Prepended(sent, c, accept, rest, 1);
      events := [accept] + rest;
      if a >= c.llmMaxInflight {
        SendingAfter(s.phases, a, ReadingOverflowBudget);
        Prepended(s', c, read, events, 1);
        events := [read] + events;
      }
      Prepended(s, c, arrive, events, 1);
      events := [arrive] + events;
    }
  }

  /** With a daily cap, even requests sent one at a time take the in-flight count to any number. */
  lemma SpentOverflowsPassAnyBound(c: Settings, n: nat) returns (events: seq<Event>)
    requires c.llmMaxInflight > 0 && c.fallbackDailyUsdCap != 0.0
    ensures Possible(START, c, events) && FewSending(START, c, events, 1) && After(START, c, events).inflight == n
  {
    events := QueuedOneByOne(START, c, 0, n);
  }

  /**
   * The limit holds in every run with at most k requests on their way at once if and only if k is one
   * and there is no daily cap, so that no overflow is ever queued.
   */
  lemma LimitHoldsIffOneAtATimeUncapped(c: Settings, k: nat)
    requires c.llmMaxInflight > 0 && k > 0
    ensures (forall events :: Possible(START, c, events) && FewSending(START, c, events, k) ==>
                                After(START, c, events).inflight <= c.llmMaxInflight)
        <==> k == 1 && c.fallbackDailyUsdCap == 0.0
  {
    if k > 1 {
      var events := InflightBoundIsReached(c, k);
    } else if c.fallbackDailyUsdCap != 0.0 {
      var events := SpentOverflowsPassAnyBound(c, c.llmMaxInflight + 1);
    } else {
      forall events | Possible(START, c, events) && FewSending(START, c, events, k)
        ensures After(START, c, events).inflight <= c.llmMaxInflight
      {
        InflightIsBounded(c, events, k);
      }
    }
  }
}
