/**
 * Requests that share one cached login. A request rejected with 401 asks for a new login under a
 * lock, and is sent once more. Each event is one stretch of code between two awaits.
 */
module PilotLogin {
  import opened Options

  type Token = nat
  type RequestId = nat

  /** A rejected request remembers the token it was sent with; None means there was none to send. */
  datatype Phase =
    | Sent(token: Option<Token>)
    | Waiting(rejected: Option<Token>)
    | Holding(rejected: Option<Token>)
    | LoggingIn(rejected: Option<Token>)
    | Resent(newToken: Token)
    | Finished
    | LoginFailed

  /**
   * Beside the cache, the lock and the requests, a record of what happened: every token ever issued,
   * oldest first, how often each request was sent, and what each successful re-login replaced.
   */
  datatype State = State(
    cached: Option<Token>, lockHolder: Option<RequestId>, phases: map<RequestId, Phase>,
    issued: seq<Token>, sends: map<RequestId, nat>, renewed: seq<Option<Token>>
  )

  datatype Event =
    | Begin(request: RequestId)
    | Respond(request: RequestId, unauthorized: bool)
    | Acquire(request: RequestId)
    | Look(request: RequestId)
    | LoginSucceeds(request: RequestId, token: Token)
    | LoginFails(request: RequestId)
    | OutsideLogin(token: Token)

  ghost predicate Enabled(s: State, e: Event) {
    match e
    case Begin(p) => p !in s.phases
    case Respond(p, _) => p in s.phases && s.phases[p].Sent?
    case Acquire(p) => p in s.phases && s.phases[p].Waiting? && s.lockHolder.None?
    case Look(p) => p in s.phases && s.phases[p].Holding?
    case LoginSucceeds(p, token) => p in s.phases && s.phases[p].LoggingIn? && token !in s.issued
    case LoginFails(p) => p in s.phases && s.phases[p].LoggingIn?
    case OutsideLogin(token) => token !in s.issued
  }

  /** A cached token other than the rejected one means another login has happened meanwhile. */
  predicate Newer(cached: Option<Token>, rejected: Option<Token>) {
    cached.Some? && cached != rejected
  }

  function SendsOf(s: State, p: RequestId): nat {
    if p in s.sends then s.sends[p] else 0
  }

  ghost function SentAgain(s: State, p: RequestId, token: Token): State {
    s.(lockHolder := None, phases := s.phases[p := Resent(token)], sends := s.sends[p := SendsOf(s, p) + 1])
  }

  ghost function Apply(s: State, e: Event): State
    requires Enabled(s, e)
  {
    match e
    case Begin(p) => s.(phases := s.phases[p := Sent(s.cached)], sends := s.sends[p := 1])
    case Respond(p, unauthorized) =>
      s.(phases := s.phases[p := if unauthorized then Waiting(s.phases[p].token) else Finished])
    case Acquire(p) => s.(lockHolder := Some(p), phases := s.phases[p := Holding(s.phases[p].rejected)])
    case Look(p) =>
      if Newer(s.cached, s.phases[p].rejected) then SentAgain(s, p, s.cached.value)
      else s.(phases := s.phases[p := LoggingIn(s.phases[p].rejected)])
    case LoginSucceeds(p, token) =>
      SentAgain(s, p, token).(cached := Some(token), issued := s.issued + [token],
                              renewed := s.renewed + [s.phases[p].rejected])
    case LoginFails(p) => s.(lockHolder := None, phases := s.phases[p := LoginFailed])
    case OutsideLogin(token) => s.(cached := Some(token), issued := s.issued + [token])
  }

  // ----- The invariant -----

  /** The cache holds the newest token. */
  ghost predicate CacheIsNewest(s: State) {
    s.cached == if s.issued == [] then None else Some(s.issued[|s.issued| - 1])
  }

  predicate HasLock(phase: Phase) {
    phase.Holding? || phase.LoggingIn?
  }

  predicate Uses(phase: Phase, token: Option<Token>) {
    match phase
    case Sent(t) => t == token
    case Waiting(t) => t == token
    case Holding(t) => t == token
    case LoggingIn(t) => t == token
    case _ => false
  }

  ghost predicate RequestInvariant(s: State, p: RequestId)
    requires p in s.phases && p in s.sends
  {
    && (HasLock(s.phases[p]) <==> s.lockHolder == Some(p))
    && s.sends[p] == (if s.phases[p].Resent? then 2 else 1)
    && (forall token: Token :: Uses(s.phases[p], Some(token)) ==> token in s.issued)
    && (s.phases[p].LoggingIn? ==> s.phases[p].rejected !in s.renewed)
    && (s.phases[p].Resent? ==> s.phases[p].newToken in s.issued)
  }

  ghost predicate Distinct<T>(xs: seq<T>) {
    forall i, j :: 0 <= i < j < |xs| ==> xs[i] != xs[j]
  }

  ghost predicate Invariant(s: State) {
    && s.sends.Keys == s.phases.Keys
    && CacheIsNewest(s) && Distinct(s.issued) && Distinct(s.renewed)
    && (s.lockHolder.Some? ==> s.lockHolder.value in s.phases)
    && (forall p :: p in s.phases ==> RequestInvariant(s, p))
    && (forall token :: Some(token) in s.renewed ==> token in s.issued)
    && (forall rejected :: rejected in s.renewed ==> Newer(s.cached, rejected))
  }

  /** Steps that issue no token and record no re-login only have the requests to look at. */
  lemma SameTokens(s: State, s': State)
    requires Invariant(s) && s'.cached == s.cached && s'.issued == s.issued && s'.renewed == s.renewed
    requires s'.sends.Keys == s'.phases.Keys && (s'.lockHolder.Some? ==> s'.lockHolder.value in s'.phases)
    requires forall p :: p in s'.phases ==> RequestInvariant(s', p)
    ensures Invariant(s')
  {
  }

  /** A request the step does not touch keeps its invariant as long as it neither gains nor loses the lock. */
  lemma Untouched(s: State, s': State, p: RequestId)
    requires p in s.phases && p in s.sends && RequestInvariant(s, p)
    requires p in s'.phases && p in s'.sends && s'.phases[p] == s.phases[p] && s'.sends[p] == s.sends[p]
    requires s'.lockHolder == Some(p) <==> s.lockHolder == Some(p)
    requires s.issued <= s'.issued
    requires s.phases[p].LoggingIn? ==> s.phases[p].rejected !in s'.renewed
    ensures RequestInvariant(s', p)
  {
    forall token: Token | Uses(s'.phases[p], Some(token)) ensures token in s'.issued {
      assert token in s.issued;
    }
  }

  lemma RequestStepKeeps(s: State, e: Event)
    requires Invariant(s) && Enabled(s, e) && (e.Begin? || e.Respond? || e.Acquire? || e.Look? || e.LoginFails?)
    ensures Invariant(Apply(s, e))
  {
    var s' := Apply(s, e);
    forall p | p in s'.phases ensures RequestInvariant(s', p) {
      if p != e.request {
        assert RequestInvariant(s, p);
        Untouched(s, s', p);
      } else if p in s.phases {
        assert RequestInvariant(s, p);
        CachedIsIssued(s);
      } else {
        CachedIsIssued(s);
      }
    }
    SameTokens(s, s');
  }

  lemma CachedIsIssued(s: State)
    requires CacheIsNewest(s)
    ensures s.cached.Some? ==> s.cached.value in s.issued
  {
  }

  lemma AppendDistinct<T>(xs: seq<T>, x: T)
    requires Distinct(xs) && x !in xs
    ensures Distinct(xs + [x])
  {
  }

  lemma LoginStepKeeps(s: State, p: RequestId, token: Token)
    requires Invariant(s) && Enabled(s, LoginSucceeds(p, token))
    ensures Invariant(Apply(s, LoginSucceeds(p, token)))
  {
    var s' := Apply(s, LoginSucceeds(p, token));
    assert RequestInvariant(s, p);
    var rejected := s.phases[p].rejected;
    assert rejected.Some? ==> Uses(s.phases[p], Some(rejected.value));
    AppendDistinct(s.issued, token);
    AppendDistinct(s.renewed, rejected);
    forall q | q in s'.phases ensures RequestInvariant(s', q) {
      assert RequestInvariant(s, q);
      if q != p {
        Untouched(s, s', q);
      }
    }
  }

  lemma OutsideStepKeeps(s: State, token: Token)
    requires Invariant(s) && Enabled(s, OutsideLogin(token))
    ensures Invariant(Apply(s, OutsideLogin(token)))
  {
    var s' := Apply(s, OutsideLogin(token));
    AppendDistinct(s.issued, token);
    forall q | q in s'.phases ensures RequestInvariant(s', q) {
      assert RequestInvariant(s, q);
      Untouched(s, s', q);
    }
  }

  lemma ApplyKeepsInvariant(s: State, e: Event)
    requires Invariant(s) && Enabled(s, e)
    ensures Invariant(Apply(s, e))
  {
    match e
    case LoginSucceeds(p, token) => LoginStepKeeps(s, p, token);
    case OutsideLogin(token) => OutsideStepKeeps(s, token);
    case _ => RequestStepKeeps(s, e);
  }

  // ----- Any interleaving -----

  ghost predicate Possible(s: State, events: seq<Event>)
    decreases |events|
  {
    events != [] ==> Enabled(s, events[0]) && Possible(Apply(s, events[0]), events[1..])
  }

  ghost function After(s: State, events: seq<Event>): State
    requires Possible(s, events)
    decreases |events|
  {
    if events == [] then s else After(Apply(s, events[0]), events[1..])
  }

  /** No request yet; at most an older login's token in the cache. */
  ghost predicate Initial(s: State) {
    && s.lockHolder.None? && s.phases == map[] && s.sends == map[] && s.renewed == []
    && s.issued == (if s.cached.None? then [] else [s.cached.value])
  }

  lemma {:induction false} InvariantHolds(s: State, events: seq<Event>)
    requires Invariant(s) && Possible(s, events)
    ensures Invariant(After(s, events))
    decreases |events|
  {
    if events != [] {
      ApplyKeepsInvariant(s, events[0]);
      InvariantHolds(Apply(s, events[0]), events[1..]);
    }
  }

  lemma InitialIsInvariant(s: State)
    requires Initial(s)
    ensures Invariant(s)
  {
  }

  /**
   * At most one re-login is open; for each rejected token, or none, at most one re-login ever
   * succeeded; and no request has been sent more than twice.
   */
  ghost predicate OneLogin(s: State) {
    && (forall p, q :: p in s.phases && q in s.phases && s.phases[p].LoggingIn? && s.phases[q].LoggingIn? ==> p == q)
    && Distinct(s.renewed)
    && (forall p :: p in s.sends ==> 1 <= s.sends[p] <= 2)
  }

  lemma InvariantMeansOneLogin(s: State)
    requires Invariant(s)
    ensures OneLogin(s)
  {
    forall p, q | p in s.phases && q in s.phases && s.phases[p].LoggingIn? && s.phases[q].LoggingIn? ensures p == q {
      assert RequestInvariant(s, p) && RequestInvariant(s, q);
    }
    forall p | p in s.sends ensures 1 <= s.sends[p] <= 2 {
      assert RequestInvariant(s, p);
    }
  }

  /** One login per rejection, in any interleaving of requests and outside logins. */
  lemma OneLoginPerRejection(s: State, events: seq<Event>)
    requires Initial(s) && Possible(s, events)
    ensures OneLogin(After(s, events))
  {
    InitialIsInvariant(s);
    InvariantHolds(s, events);
    InvariantMeansOneLogin(After(s, events));
  }

  /** The position of a token in the order of issue. */
  ghost predicate IssuedBefore(s: State, a: Token, b: Token) {
    exists i, j :: 0 <= i < j < |s.issued| && s.issued[i] == a && s.issued[j] == b
  }

  /**
   * Once a rejected token has been renewed, every request still waiting on it that gets the lock is
   * sent again with a token issued later, without opening a login, and gives the lock up.
   */
  lemma LaterWaitersReuse(s: State, p: RequestId)
    requires Invariant(s) && p in s.phases && s.phases[p].Holding? && s.phases[p].rejected in s.renewed
    ensures var s' := Apply(s, Look(p));
            && s.cached.Some? && s'.phases[p] == Resent(s.cached.value) && s'.lockHolder.None?
            && s'.renewed == s.renewed && s'.issued == s.issued
            && (s.phases[p].rejected.Some? ==> IssuedBefore(s, s.phases[p].rejected.value, s.cached.value))
  {
    assert RequestInvariant(s, p);
    var rejected := s.phases[p].rejected;
    assert Newer(s.cached, rejected);
    if rejected.Some? {
      assert Uses(s.phases[p], Some(rejected.value));
      var i :| 0 <= i < |s.issued| && s.issued[i] == rejected.value;
      assert s.issued[|s.issued| - 1] == s.cached.value;
      assert i < |s.issued| - 1;
    }
  }

  /** What has been renewed stays renewed, so the waiters above include those that come later. */
  lemma {:induction false} RenewedStays(s: State, events: seq<Event>, rejected: Option<Token>)
    requires Invariant(s) && Possible(s, events) && rejected in s.renewed
    ensures rejected in After(s, events).renewed
    decreases |events|
  {
    if events != [] {
      ApplyKeepsInvariant(s, events[0]);
      RenewedStays(Apply(s, events[0]), events[1..], rejected);
    }
  }

  /** A request that waits is never stuck: the lock is free for it, or its holder can go on. */
  lemma WaitersCanProceed(s: State, p: RequestId)
    requires Invariant(s) && p in s.phases && s.phases[p].Waiting?
    ensures Enabled(s, Acquire(p)) ||
            (s.lockHolder.Some? && (Enabled(s, Look(s.lockHolder.value)) || Enabled(s, LoginFails(s.lockHolder.value))))
  {
    if s.lockHolder.Some? {
      assert RequestInvariant(s, s.lockHolder.value);
    }
  }
}
