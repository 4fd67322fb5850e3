/**
 * Where the gateway sends a request, told from the run so far: how long heket is left alone after a
 * failure or the probe's verdict, when it is tried again, and why a request ends up with no backend.
 */
module GatewayRouting {
  import opened Options
  import opened LlmGateway
  import opened GatewayRuns

  // ----- The last word on heket -----

  /** The last failure of heket, or the last verdict of the probe, whichever came later. */
  function LastVerdict(events: seq<Event>): Option<Event> {
    if events == [] then None
    else
      var last := events[|events| - 1];
      if last.HeketFails? || last.ProbeDown? || last.ProbeUp? then Some(last) else LastVerdict(events[..|events| - 1])
  }

  /** Heket is to be left alone at this time, and why. */
  function Benched(verdict: Option<Event>, now: real): Option<Reason> {
    match verdict
    case Some(HeketFails(_, why, failedAt)) => if now < failedAt + 30.0 then Some(why) else None
    case Some(ProbeDown(why)) => Some(why)
    case _ => None
  }

  lemma {:induction false} StateOfVerdict(c: Settings, events: seq<Event>)
    requires Possible(START, c, events)
    ensures var s := After(START, c, events);
            match LastVerdict(events)
            case Some(HeketFails(_, why, failedAt)) =>
              s.downUntil == At(failedAt + 30.0) && s.downReason == Some(why) && why in {Timeout, Down, ServerError}
            case Some(ProbeDown(why)) => s.downUntil == Forever && s.downReason == Some(why) && why != Overflow
            case _ => s.downUntil == At(0.0) && s.downReason == None
    decreases |events|
  {
    if events != [] {
      var before, e := events[..|events| - 1], events[|events| - 1];
      assert events == before + [e];
      LastEvent(START, c, before, e);
      StateOfVerdict(c, before);
    }
  }

  /**
   * Where a request goes on arrival. While heket is benched, for thirty seconds after its last failure
   * or until the probe finds it up again, a request is not sent there; it falls back for the reason
   * heket was benched for, or has no backend. At any other time it is sent to heket below the in-flight
   * limit, and above it the day's budget decides.
   */
  lemma ArrivalRouted(c: Settings, events: seq<Event>, r: Request, now: real)
    requires Possible(START, c, events) && now >= 0.0 && Enabled(After(START, c, events), Arrive(r, now))
    ensures var s := After(START, c, events);
            var phase := Apply(s, c, Arrive(r, now)).phases[r];
            match Benched(LastVerdict(events), now)
            case Some(why) => phase == if c.fallbackConfigured then ReadingFallbackBudget(why, false) else NoBackend
            case None =>
              phase == if c.llmMaxInflight == 0 || |StreamingOf(s.phases)| < c.llmMaxInflight then SendingToHeket
                       else ReadingOverflowBudget
  {
    StateOfVerdict(c, events);
    GatewayAccounts(c, events);
  }

  // ----- For good -----

  /** Turned away from heket before it was ever asked, for this reason. */
  predicate TurnedUnsent(phase: Phase, why: Reason) {
    match phase
    case ReadingFallbackBudget(reason, sent) => reason == why && !sent
    case HostedCall(reason, sent, _) => reason == why && !sent
    case HostedDone(reason, sent, _) => reason == why && !sent
    case NoBackend => true
    case _ => false
  }

  lemma {:induction false} StaysTurned(s: State, c: Settings, events: seq<Event>, r: Request, why: Reason)
    requires Possible(s, c, events) && IsIn(s, r) && TurnedUnsent(s.phases[r], why)
    ensures IsIn(After(s, c, events), r) && TurnedUnsent(After(s, c, events).phases[r], why)
    ensures s.phases[r].NoBackend? ==> After(s, c, events).phases[r].NoBackend?
    decreases |events|
  {
    if events != [] {
      StaysTurned(Apply(s, c, events[0]), c, events[1..], r, why);
    }
  }

  /**
   * A request that arrives while heket is benched is never sent there, whatever happens afterwards: it
   * is on the fallback for the very reason of the bench, or without a backend.
   */
  lemma BenchedIsNeverSent(c: Settings, events: seq<Event>, i: nat, r: Request, now: real, why: Reason)
    requires Possible(START, c, events) && i < |events| && events[i] == Arrive(r, now) && now >= 0.0
    requires Benched(LastVerdict(events[..i]), now) == Some(why)
    ensures IsIn(After(START, c, events), r) && TurnedUnsent(After(START, c, events).phases[r], why)
    ensures !c.fallbackConfigured ==> After(START, c, events).phases[r].NoBackend?
  {
    SplitRun(START, c, events, i);
    var s, rest := After(START, c, events[..i]), events[i..];
    assert rest[0] == events[i];
    ArrivalRouted(c, events[..i], r, now);
    StaysTurned(Apply(s, c, rest[0]), c, rest[1..], r, why);
  }

  // ----- Why a request has no backend -----

  /** The j-th event read a day's spend that is used up. */
  ghost predicate SpentAt(c: Settings, events: seq<Event>, i: nat, j: nat, r: Request, seen: real) {
    && i < j < |events| && events[j] == FallbackBudgetRead(r, seen)
    && c.fallbackDailyUsdCap != 0.0 && seen >= c.fallbackDailyUsdCap
  }

  /** Turned away from heket at i, with no provider configured or, later, the day's budget used up. */
  ghost predicate LeftAt(c: Settings, events: seq<Event>, i: nat, r: Request, reason: Reason, sent: bool) {
    && TurnedAt(c, events, i, r, reason, sent)
    && (!c.fallbackConfigured || exists j, seen :: SpentAt(c, events, i, j, r, seen))
  }

  ghost predicate Left(c: Settings, events: seq<Event>, r: Request) {
    exists i, reason, sent :: LeftAt(c, events, i, r, reason, sent)
  }

  lemma LeftLonger(c: Settings, before: seq<Event>, e: Event, r: Request)
    requires Left(c, before, r)
    ensures Left(c, before + [e], r)
  {
    var events := before + [e];
    var i: nat, reason, sent :| LeftAt(c, before, i, r, reason, sent);
    TurnedLonger(c, before, e, i, r, reason, sent);
    if c.fallbackConfigured {
      var j: nat, seen :| SpentAt(c, before, i, j, r, seen);
      assert SpentAt(c, events, i, j, r, seen);
    }
    assert LeftAt(c, events, i, r, reason, sent);
  }

  lemma LeftByLast(c: Settings, before: seq<Event>, e: Event, r: Request)
    requires Possible(START, c, before) && Enabled(After(START, c, before), e)
    requires !(IsIn(After(START, c, before), r) && After(START, c, before).phases[r].NoBackend?)
    requires IsIn(Apply(After(START, c, before), c, e), r) && Apply(After(START, c, before), c, e).phases[r].NoBackend?
    ensures Left(c, before + [e], r)
  {
    var s, events := After(START, c, before), before + [e];
    assert events[..|before|] == before;
    if e.FallbackBudgetRead? {
      AlwaysExplained(c, before, r);
      var p := s.phases[r];
      var i: nat :| TurnedAt(c, before, i, r, p.reason, p.sent);
      TurnedLonger(c, before, e, i, r, p.reason, p.sent);
      assert SpentAt(c, events, i, |before|, r, e.spend);
      assert LeftAt(c, events, i, r, p.reason, p.sent);
    } else {
      var reason := if e.HeketFails? then e.reason else if e.Arrive? then SkipHeketReason(s, c, e.now).value else Overflow;
      assert TurnsAway(s, c, e, r, reason, e.HeketFails?);
      assert LeftAt(c, events, |before|, r, reason, e.HeketFails?);
    }
  }

  /**
   * No request is left without a backend but for one of two reasons: heket did not take it and no
   * provider is configured, or heket did not take it and the day's budget was then read used up.
   */
  lemma {:induction false} NoBackendHistory(c: Settings, events: seq<Event>, r: Request)
    requires Possible(START, c, events) && IsIn(After(START, c, events), r) && After(START, c, events).phases[r].NoBackend?
    ensures Left(c, events, r)
    decreases |events|
  {
    if events != [] {
      var before, e := events[..|events| - 1], events[|events| - 1];
      assert events == before + [e];
      LastEvent(START, c, before, e);
      if IsIn(After(START, c, before), r) && After(START, c, before).phases[r].NoBackend? {
        NoBackendHistory(c, before, r);
        LeftLonger(c, before, e, r);
      } else {
        LeftByLast(c, before, e, r);
      }
    }
  }

  // ----- No request is stuck -----

  predicate IsOver(phase: Phase) {
    phase.HeketDone? || phase.HostedDone? || phase.NoBackend?
  }

  /** The request an event moves on, if any. */
  predicate Moves(e: Event, r: Request) {
    !e.ProbeDown? && !e.ProbeUp? && e.request == r
  }

  function EventsLeft(phase: Phase): nat {
    match phase
    case ReadingOverflowBudget => 5
    case SendingToHeket => 4
    case Streaming => 2
    case BodyFinished => 1
    case ReadingFallbackBudget(_, _) => 2
    case HostedCall(_, _, _) => 1
    case _ => 0
  }

  function EventsOf(events: seq<Event>, r: Request): nat {
    if events == [] then 0 else (if Moves(events[0], r) then 1 else 0) + EventsOf(events[1..], r)
  }

  lemma {:induction false} EventsRunOut(s: State, c: Settings, events: seq<Event>, r: Request)
    requires Possible(s, c, events) && IsIn(s, r)
    ensures EventsOf(events, r) <= EventsLeft(s.phases[r])
    decreases |events|
  {
    if events != [] {
      EventsRunOut(Apply(s, c, events[0]), c, events[1..], r);
    }
  }

  /** A request that is not over can go on, and is over after at most five more events of its own. */
  lemma RequestEnds(s: State, c: Settings, r: Request, events: seq<Event>) returns (e: Event)
    requires IsIn(s, r) && Possible(s, c, events)
    ensures EventsOf(events, r) <= 5
    ensures !IsOver(s.phases[r]) ==> Enabled(s, e) && Moves(e, r)
  {
    EventsRunOut(s, c, events, r);
    e := match s.phases[r]
      case ReadingOverflowBudget => OverflowBudgetRead(r, 0.0)
      case SendingToHeket => HeketAccepts(r)
      case Streaming => BodyEnds(r)
      case BodyFinished => HeketUsageWritten(r)
      case ReadingFallbackBudget(_, _) => FallbackBudgetRead(r, 0.0)
      case _ => HostedEnds(r);
  }

  // ----- And each of its ends can come about -----

  lemma OneMore(s: State, c: Settings, events: seq<Event>, e: Event)
    requires Possible(s, c, events) && Enabled(After(s, c, events), e)
    ensures Possible(s, c, events + [e]) && After(s, c, events + [e]) == Apply(After(s, c, events), c, e)
  {
    LastEvent(s, c, events, e);
  }

  /** Heket can fail a request for any of its reasons, or be benched by the probe for any of the probe's, and the request be paid for. */
  lemma AnyReasonCanBePaid(c: Settings, why: Reason, sent: bool) returns (events: seq<Event>)
    requires c.fallbackConfigured && why in (if sent then {Timeout, Down, ServerError} else {Down, DigestMismatch, Warming})
    ensures Possible(START, c, events) && IsIn(After(START, c, events), 0)
    ensures After(START, c, events).phases[0] == HostedDone(why, sent, c.fallbackDailyUsdCap - 1.0)
  {
    events := [];
    if sent {
      OneMore(START, c, events, Arrive(0, 0.0));
      events := events + [Arrive(0, 0.0)];
      OneMore(START, c, events, HeketFails(0, why, 0.0));
      events := events + [HeketFails(0, why, 0.0)];
    } else {
      OneMore(START, c, events, ProbeDown(why));
      events := events + [ProbeDown(why)];
      OneMore(START, c, events, Arrive(0, 0.0));
      events := events + [Arrive(0, 0.0)];
    }
    OneMore(START, c, events, FallbackBudgetRead(0, c.fallbackDailyUsdCap - 1.0));
    events := events + [FallbackBudgetRead(0, c.fallbackDailyUsdCap - 1.0)];
    OneMore(START, c, events, HostedEnds(0));
    events := events + [HostedEnds(0)];
  }
}
