/**
 * The gateway's routing between the heket box and a hosted fallback. Each event is one stretch of
 * code between two awaits, or the health probe's verdict.
 */
module LlmGateway {
  import opened Options

  type Request = nat

  const DOWN_FOR_S: real := 30.0

  datatype Reason = Down | Timeout | ServerError | DigestMismatch | Warming | Overflow

  datatype Until = At(time: real) | Forever

  datatype Settings = Settings(llmMaxInflight: nat, fallbackConfigured: bool, fallbackDailyUsdCap: real)

  /**
   * Where a request is. sent says heket was tried and failed before it answered; seen is the day's
   * hosted spend read just before the hosted call.
   */
  datatype Phase =
    | ReadingOverflowBudget
    | SendingToHeket
    | Streaming
    | BodyFinished
    | ReadingFallbackBudget(reason: Reason, sent: bool)
    | HostedCall(reason: Reason, sent: bool, seen: real)
    | HeketDone
    | HostedDone(reason: Reason, sent: bool, seen: real)
    | NoBackend

  /** accepted lists the requests heket answered below 500; usage the requests a usage row was attempted for. */
  datatype State = State(
    downUntil: Until, downReason: Option<Reason>, inflight: int,
    phases: map<Request, Phase>, accepted: seq<Request>, usage: seq<Request>
  )

  datatype Event =
    | Arrive(request: Request, now: real)
    | OverflowBudgetRead(request: Request, spend: real)
    | HeketAccepts(request: Request)
    | HeketFails(request: Request, reason: Reason, now: real)
    | BodyEnds(request: Request)
    | HeketUsageWritten(request: Request)
    | FallbackBudgetRead(request: Request, spend: real)
    | HostedEnds(request: Request)
    | ProbeDown(reason: Reason)
    | ProbeUp

  function SkipHeketReason(s: State, c: Settings, now: real): Option<Reason> {
    if s.downUntil.Forever? || now < s.downUntil.time then Some(if s.downReason.Some? then s.downReason.value else Down)
    else if c.llmMaxInflight != 0 && s.inflight >= c.llmMaxInflight then Some(Overflow)
    else None
  }

  predicate BudgetExhausted(c: Settings, spend: real) {
    c.fallbackDailyUsdCap != 0.0 && spend >= c.fallbackDailyUsdCap
  }

  predicate IsIn(s: State, r: Request) {
    r in s.phases
  }

  ghost predicate Enabled(s: State, e: Event) {
    match e
    case Arrive(r, _) => !IsIn(s, r)
    case OverflowBudgetRead(r, _) => IsIn(s, r) && s.phases[r].ReadingOverflowBudget?
    case HeketAccepts(r) => IsIn(s, r) && s.phases[r].SendingToHeket?
    case HeketFails(r, reason, _) => IsIn(s, r) && s.phases[r].SendingToHeket? && reason in {Timeout, Down, ServerError}
    case BodyEnds(r) => IsIn(s, r) && s.phases[r].Streaming?
    case HeketUsageWritten(r) => IsIn(s, r) && s.phases[r].BodyFinished?
    case FallbackBudgetRead(r, _) => IsIn(s, r) && s.phases[r].ReadingFallbackBudget?
    case HostedEnds(r) => IsIn(s, r) && s.phases[r].HostedCall?
    case ProbeDown(reason) => reason in {Down, DigestMismatch, Warming}
    case ProbeUp => true
  }

  function To(s: State, r: Request, phase: Phase): State {
    s.(phases := s.phases[r := phase])
  }

  /** Falling back needs a configured provider before it even reads the budget. */
  function FallBack(s: State, c: Settings, r: Request, reason: Reason, sent: bool): State {
    To(s, r, if c.fallbackConfigured then ReadingFallbackBudget(reason, sent) else NoBackend)
  }

  ghost function Apply(s: State, c: Settings, e: Event): State
    requires Enabled(s, e)
  {
    match e
    case Arrive(r, now) => (
      match SkipHeketReason(s, c, now)
      case None => To(s, r, SendingToHeket)
      case Some(Overflow) => To(s, r, ReadingOverflowBudget)
      case Some(reason) => FallBack(s, c, r, reason, false))
    case OverflowBudgetRead(r, spend) =>
      if BudgetExhausted(c, spend) then To(s, r, SendingToHeket) else FallBack(s, c, r, Overflow, false)
    case HeketAccepts(r) => To(s, r, Streaming).(inflight := s.inflight + 1, accepted := s.accepted + [r])
    case HeketFails(r, reason, now) =>
      FallBack(s, c, r, reason, true).(downUntil := At(now + DOWN_FOR_S), downReason := Some(reason))
    case BodyEnds(r) => To(s, r, BodyFinished).(inflight := s.inflight - 1)
    case HeketUsageWritten(r) => To(s, r, HeketDone).(usage := s.usage + [r])
    case FallbackBudgetRead(r, spend) =>
      var p := s.phases[r];
      To(s, r, if BudgetExhausted(c, spend) then NoBackend else HostedCall(p.reason, p.sent, spend))
    case HostedEnds(r) =>
      var p := s.phases[r];
      To(s, r, HostedDone(p.reason, p.sent, p.seen)).(usage := s.usage + [r])
    case ProbeDown(reason) => s.(downUntil := Forever, downReason := Some(reason))
    case ProbeUp => s.(downUntil := At(0.0), downReason := None)
  }

  const START := State(At(0.0), None, 0, map[], [], [])

  // ----- The invariant -----

  function StreamingOf(phases: map<Request, Phase>): set<Request> {
    set r | r in phases && phases[r].Streaming?
  }

  predicate Answered(phase: Phase) {
    phase.Streaming? || phase.BodyFinished? || phase.HeketDone?
  }

  predicate Ended(phase: Phase) {
    phase.HeketDone? || phase.HostedDone?
  }

  /** What a hosted call needs: a provider, spend below the cap, and a reason to be there. */
  ghost predicate Justified(c: Settings, phase: Phase) {
    && (phase.ReadingFallbackBudget? ==> c.fallbackConfigured)
    && (phase.HostedCall? ==> c.fallbackConfigured && !BudgetExhausted(c, phase.seen))
    && (phase.HostedDone? ==> c.fallbackConfigured && !BudgetExhausted(c, phase.seen))
  }

  ghost predicate Distinct(rs: seq<Request>) {
    forall i, j :: 0 <= i < j < |rs| ==> rs[i] != rs[j]
  }

  ghost predicate AcceptedAreAnswered(s: State) {
    Distinct(s.accepted) && forall r :: r in s.accepted <==> IsIn(s, r) && Answered(s.phases[r])
  }

  ghost predicate UsageOfEnded(s: State) {
    Distinct(s.usage) && forall r :: r in s.usage <==> IsIn(s, r) && Ended(s.phases[r])
  }

  ghost predicate AllJustified(s: State, c: Settings) {
    forall r :: r in s.phases ==> Justified(c, s.phases[r])
  }

  ghost predicate Invariant(s: State, c: Settings) {
    && s.inflight == |StreamingOf(s.phases)|
    && AcceptedAreAnswered(s) && UsageOfEnded(s) && AllJustified(s, c)
  }

  lemma StreamingAfter(phases: map<Request, Phase>, r: Request, to: Phase)
    ensures |StreamingOf(phases[r := to])| == |StreamingOf(phases)|
         - (if r in phases && phases[r].Streaming? then 1 else 0) + (if to.Streaming? then 1 else 0)
  {
    var before, after := StreamingOf(phases), StreamingOf(phases[r := to]);
    SizeWithout(before, r);
    SizeWithout(after, r);
    assert after - {r} == before - {r};
  }

  lemma SizeWithout(rs: set<Request>, r: Request)
    ensures |rs| == |rs - {r}| + (if r in rs then 1 else 0)
  {
    if r !in rs {
      assert rs - {r} == rs;
    }
  }

  lemma Appended(rs: seq<Request>, r: Request)
    requires Distinct(rs) && r !in rs
    ensures Distinct(rs + [r]) && forall q :: q in rs + [r] <==> q in rs || q == r
  {
  }

  lemma InflightStays(s: State, c: Settings, e: Event)
    requires s.inflight == |StreamingOf(s.phases)| && Enabled(s, e)
    ensures Apply(s, c, e).inflight == |StreamingOf(Apply(s, c, e).phases)|
  {
    if !e.ProbeDown? && !e.ProbeUp? {
      StreamingAfter(s.phases, e.request, Apply(s, c, e).phases[e.request]);
    }
  }

  lemma AcceptedStays(s: State, c: Settings, e: Event)
    requires AcceptedAreAnswered(s) && Enabled(s, e)
    ensures AcceptedAreAnswered(Apply(s, c, e))
  {
    if e.HeketAccepts? {
      Appended(s.accepted, e.request);
    }
  }

  lemma UsageStays(s: State, c: Settings, e: Event)
    requires UsageOfEnded(s) && Enabled(s, e)
    ensures UsageOfEnded(Apply(s, c, e))
  {
    if e.HeketUsageWritten? || e.HostedEnds? {
      Appended(s.usage, e.request);
    }
  }

  lemma JustifiedStays(s: State, c: Settings, e: Event)
    requires AllJustified(s, c) && Enabled(s, e)
    ensures AllJustified(Apply(s, c, e), c)
  {
  }

  lemma ApplyKeepsInvariant(s: State, c: Settings, e: Event)
    requires Invariant(s, c) && Enabled(s, e)
    ensures Invariant(Apply(s, c, e), c)
  {
    InflightStays(s, c, e);
    AcceptedStays(s, c, e);
    UsageStays(s, c, e);
    JustifiedStays(s, c, e);
  }

  // ----- Any interleaving -----

  ghost predicate Possible(s: State, c: Settings, events: seq<Event>)
    decreases |events|
  {
    events != [] ==> Enabled(s, events[0]) && Possible(Apply(s, c, events[0]), c, events[1..])
  }

  ghost function After(s: State, c: Settings, events: seq<Event>): State
    requires Possible(s, c, events)
    decreases |events|
  {
    if events == [] then s else After(Apply(s, c, events[0]), c, events[1..])
  }

  lemma {:induction false} InvariantHolds(s: State, c: Settings, events: seq<Event>)
    requires Invariant(s, c) && Possible(s, c, events)
    ensures Invariant(After(s, c, events), c)
    decreases |events|
  {
    if events != [] {
      ApplyKeepsInvariant(s, c, events[0]);
      InvariantHolds(Apply(s, c, events[0]), c, events[1..]);
    }
  }

  /**
   * In any interleaving: the in-flight count is the number of accepted relays whose body has not
   * finished; a request ends with exactly one attempted usage row and none before; and a hosted call
   * is made only with a provider configured, with the spend just read below the cap, and for a
   * request heket never answered.
   */
  lemma GatewayAccounts(c: Settings, events: seq<Event>)
    requires Possible(START, c, events)
    ensures var s := After(START, c, events);
            && s.inflight == |StreamingOf(s.phases)|
            && (forall r :: r in s.phases ==> multiset(s.usage)[r] == if Ended(s.phases[r]) then 1 else 0)
            && (forall r :: r in s.phases && (s.phases[r].HostedCall? || s.phases[r].HostedDone?) ==>
                  && c.fallbackConfigured && r !in s.accepted
                  && (c.fallbackDailyUsdCap == 0.0 || s.phases[r].seen < c.fallbackDailyUsdCap))
  {
    assert StreamingOf(START.phases) == {};
    InvariantHolds(START, c, events);
    var s := After(START, c, events);
    forall r | r in s.phases ensures multiset(s.usage)[r] == if Ended(s.phases[r]) then 1 else 0 {
      CountDistinct(s.usage, r);
    }
  }

  lemma {:induction false} CountDistinct(rs: seq<Request>, r: Request)
    requires Distinct(rs)
    ensures multiset(rs)[r] == if r in rs then 1 else 0
  {
    if rs != [] {
      assert rs == [rs[0]] + rs[1..];
      CountDistinct(rs[1..], r);
    }
  }
}
