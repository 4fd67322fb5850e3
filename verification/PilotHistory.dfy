/**
 * What every request's phase says about the run behind it: who was rejected, with which token, and
 * whose rejection each re-login answered.
 */
module PilotHistory {
  import opened Options
  import opened PilotLogin

  // ----- Runs, one event longer -----

  lemma {:induction false} LastEvent(s: State, before: seq<Event>, e: Event)
    ensures Possible(s, before + [e]) <==> Possible(s, before) && Enabled(After(s, before), e)
    ensures Possible(s, before + [e]) ==> After(s, before + [e]) == Apply(After(s, before), e)
    decreases |before|
  {
    var events := before + [e];
    if before == [] {
      assert events == [e] && [e][1..] == [];
    } else {
      assert events[0] == before[0] && events[1..] == before[1..] + [e];
      if Enabled(s, before[0]) {
        LastEvent(Apply(s, before[0]), before[1..], e);
      }
    }
  }

  // ----- The story of one request -----

  /** The i-th event sent the request out, with the token the cache held at that moment. */
  ghost predicate SentWith(s: State, events: seq<Event>, i: nat, p: RequestId, token: Option<Token>) {
    && i < |events| && events[i] == Begin(p)
    && Possible(s, events[..i]) && After(s, events[..i]).cached == token
  }

  ghost predicate AnsweredAt(events: seq<Event>, j: nat, p: RequestId, unauthorized: bool) {
    j < |events| && events[j] == Respond(p, unauthorized)
  }

  /** Sent at i with the token, and rejected with 401 at j. */
  ghost predicate RejectedAt(s: State, events: seq<Event>, i: nat, j: nat, p: RequestId, token: Option<Token>) {
    i < j && SentWith(s, events, i, p, token) && AnsweredAt(events, j, p, true)
  }

  ghost predicate Rejected(s: State, events: seq<Event>, p: RequestId, token: Option<Token>) {
    exists i, j :: RejectedAt(s, events, i, j, p, token)
  }

  /** Rejected, and sent again with another token than the rejected one. */
  ghost predicate RejectedFor(s: State, events: seq<Event>, p: RequestId, newToken: Token) {
    exists token :: Rejected(s, events, p, token) && token != Some(newToken)
  }

  ghost predicate Answered(events: seq<Event>, p: RequestId, unauthorized: bool) {
    exists j :: AnsweredAt(events, j, p, unauthorized)
  }

  /** What must have happened to a request in this phase. */
  ghost predicate Story(s: State, events: seq<Event>, p: RequestId, phase: Phase) {
    match phase
    case Sent(token) => exists i :: SentWith(s, events, i, p, token)
    case Waiting(token) => Rejected(s, events, p, token)
    case Holding(token) => Rejected(s, events, p, token)
    case LoggingIn(token) => Rejected(s, events, p, token)
    case Resent(newToken) => RejectedFor(s, events, p, newToken)
    case Finished => true
    case LoginFailed => exists token :: Rejected(s, events, p, token)
  }

  /** A request has had the answer its phase stands for, and no other. */
  ghost predicate AnswersFit(events: seq<Event>, p: RequestId, phase: Phase) {
    && (Answered(events, p, false) <==> phase.Finished?)
    && (Answered(events, p, true) <==> !phase.Finished? && !phase.Sent?)
  }

  lemma RejectedLonger(s: State, before: seq<Event>, e: Event, p: RequestId, token: Option<Token>)
    requires Rejected(s, before, p, token)
    ensures Rejected(s, before + [e], p, token)
  {
    var i: nat, j: nat :| RejectedAt(s, before, i, j, p, token);
    assert (before + [e])[..i] == before[..i];
    assert RejectedAt(s, before + [e], i, j, p, token);
  }

  lemma StoryLonger(s: State, before: seq<Event>, e: Event, p: RequestId, phase: Phase)
    requires Story(s, before, p, phase)
    ensures Story(s, before + [e], p, phase)
  {
    match phase
    case Sent(token) =>
      var i: nat :| SentWith(s, before, i, p, token);
      assert (before + [e])[..i] == before[..i];
      assert SentWith(s, before + [e], i, p, token);
    case Resent(newToken) =>
      var token :| Rejected(s, before, p, token) && token != Some(newToken);
      RejectedLonger(s, before, e, p, token);
    case LoginFailed =>
      var token :| Rejected(s, before, p, token);
      RejectedLonger(s, before, e, p, token);
    case Finished =>
    case _ =>
      RejectedLonger(s, before, e, p, phase.rejected);
  }

  lemma AnsweredLonger(before: seq<Event>, e: Event, p: RequestId, unauthorized: bool)
    ensures Answered(before + [e], p, unauthorized) <==> Answered(before, p, unauthorized) || e == Respond(p, unauthorized)
  {
    var events := before + [e];
    if Answered(before, p, unauthorized) {
      var j: nat :| AnsweredAt(before, j, p, unauthorized);
      assert AnsweredAt(events, j, p, unauthorized);
    }
    if e == Respond(p, unauthorized) {
      assert AnsweredAt(events, |before|, p, unauthorized);
    }
    if Answered(events, p, unauthorized) {
      var j: nat :| AnsweredAt(events, j, p, unauthorized);
      assert j < |before| ==> AnsweredAt(before, j, p, unauthorized);
    }
  }

  lemma StoryOfLast(s: State, before: seq<Event>, e: Event, p: RequestId)
    requires Possible(s, before) && Enabled(After(s, before), e) && Invariant(After(s, before))
    requires p in After(s, before).phases ==> Story(s, before, p, After(s, before).phases[p])
    requires p in Apply(After(s, before), e).phases
    ensures Story(s, before + [e], p, Apply(After(s, before), e).phases[p])
  {
    var t, events := After(s, before), before + [e];
    var phase := Apply(t, e).phases[p];
    assert events[..|before|] == before;
    if p in t.phases {
      StoryLonger(s, before, e, p, t.phases[p]);
      if phase != t.phases[p] {
        StoryMovesOn(s, before, e, p);
      }
    } else {
      assert SentWith(s, events, |before|, p, t.cached);
    }
  }

  lemma StoryMovesOn(s: State, before: seq<Event>, e: Event, p: RequestId)
    requires Possible(s, before) && Enabled(After(s, before), e) && Invariant(After(s, before))
    requires p in After(s, before).phases && Story(s, before + [e], p, After(s, before).phases[p])
    requires Story(s, before, p, After(s, before).phases[p])
    requires Apply(After(s, before), e).phases[p] != After(s, before).phases[p]
    ensures Story(s, before + [e], p, Apply(After(s, before), e).phases[p])
  {
    if e.Respond? {
      if e.unauthorized {
        RejectedLast(s, before, p, After(s, before).phases[p].token);
      }
    } else if e.LoginSucceeds? {
      NewToken(After(s, before), p, e.token);
    } else if e.Look? {
      assert Rejected(s, before + [e], p, After(s, before).phases[p].rejected);
    }
  }

  /** A 401 for a request on its way. */
  lemma RejectedLast(s: State, before: seq<Event>, p: RequestId, token: Option<Token>)
    requires exists i :: SentWith(s, before, i, p, token)
    ensures Rejected(s, before + [Respond(p, true)], p, token)
  {
    var events := before + [Respond(p, true)];
    var i: nat :| SentWith(s, before, i, p, token);
    assert events[..i] == before[..i];
    assert RejectedAt(s, events, i, |before|, p, token);
  }

  lemma NewToken(t: State, p: RequestId, token: Token)
    requires Invariant(t) && Enabled(t, LoginSucceeds(p, token))
    ensures t.phases[p].rejected != Some(token)
  {
    assert RequestInvariant(t, p);
    var rejected := t.phases[p].rejected;
    assert rejected.Some? ==> Uses(t.phases[p], Some(rejected.value));
  }

  lemma AnswersOfLast(s: State, before: seq<Event>, e: Event, p: RequestId)
    requires Possible(s, before) && Enabled(After(s, before), e)
    requires if p in After(s, before).phases then AnswersFit(before, p, After(s, before).phases[p])
             else !Answered(before, p, true) && !Answered(before, p, false)
    ensures if p in Apply(After(s, before), e).phases then AnswersFit(before + [e], p, Apply(After(s, before), e).phases[p])
            else !Answered(before + [e], p, true) && !Answered(before + [e], p, false)
  {
    AnsweredLonger(before, e, p, true);
    AnsweredLonger(before, e, p, false);
  }

  lemma {:induction false} AlwaysAStory(s: State, events: seq<Event>, p: RequestId)
    requires Initial(s) && Possible(s, events)
    ensures p in After(s, events).phases ==> Story(s, events, p, After(s, events).phases[p])
    ensures if p in After(s, events).phases then AnswersFit(events, p, After(s, events).phases[p])
            else !Answered(events, p, true) && !Answered(events, p, false)
    decreases |events|
  {
    if events != [] {
      var before, e := events[..|events| - 1], events[|events| - 1];
      assert events == before + [e];
      LastEvent(s, before, e);
      AlwaysAStory(s, before, p);
      InitialIsInvariant(s);
      InvariantHolds(s, before);
      AnswersOfLast(s, before, e, p);
      if p in After(s, events).phases {
        StoryOfLast(s, before, e, p);
      }
    }
  }

  /**
   * In any run: a request is done if and only if it was answered with anything but a 401. It waits,
   * holds the lock, logs in, was sent again or has failed if and only if it was answered with one, and
   * what it then asks to renew is the token the cache held when it was sent.
   */
  lemma RequestHistory(s: State, events: seq<Event>, p: RequestId)
    requires Initial(s) && Possible(s, events) && p in After(s, events).phases
    ensures Story(s, events, p, After(s, events).phases[p])
    ensures After(s, events).phases[p].Finished? <==> Answered(events, p, false)
    ensures After(s, events).phases[p].Finished? || After(s, events).phases[p].Sent? <==> !Answered(events, p, true)
  {
    AlwaysAStory(s, events, p);
  }

  // ----- The story of every re-login -----

  /** At k a login opened by this request succeeded, after the request had been rejected with the token. */
  ghost predicate RenewedAt(s: State, events: seq<Event>, k: nat, p: RequestId, rejected: Option<Token>) {
    && k < |events| && events[k].LoginSucceeds? && events[k].request == p
    && Rejected(s, events[..k], p, rejected)
  }

  ghost predicate Renewal(s: State, events: seq<Event>, rejected: Option<Token>) {
    exists k, p :: RenewedAt(s, events, k, p, rejected)
  }

  function Logins(events: seq<Event>): nat {
    if events == [] then 0
    else Logins(events[..|events| - 1]) + (if events[|events| - 1].LoginSucceeds? then 1 else 0)
  }

  /** Each renewal is of a token some request was rejected with before, and every successful re-login is one. */
  lemma {:induction false} RenewalHistory(s: State, events: seq<Event>)
    requires Initial(s) && Possible(s, events)
    ensures |After(s, events).renewed| == Logins(events)
    ensures forall rejected :: rejected in After(s, events).renewed ==> Renewal(s, events, rejected)
    decreases |events|
  {
    if events != [] {
      var before, e := events[..|events| - 1], events[|events| - 1];
      assert events == before + [e];
      LastEvent(s, before, e);
      RenewalHistory(s, before);
      forall rejected | rejected in After(s, events).renewed ensures Renewal(s, events, rejected) {
        if rejected in After(s, before).renewed {
          RenewalLonger(s, before, e, rejected);
        } else {
          RequestHistory(s, before, e.request);
          assert events[..|before|] == before;
          assert RenewedAt(s, events, |before|, e.request, rejected);
        }
      }
    }
  }

  lemma RenewalLonger(s: State, before: seq<Event>, e: Event, rejected: Option<Token>)
    requires Renewal(s, before, rejected)
    ensures Renewal(s, before + [e], rejected)
  {
    var k: nat, p :| RenewedAt(s, before, k, p, rejected);
    assert (before + [e])[..k] == before[..k];
    assert RenewedAt(s, before + [e], k, p, rejected);
  }

  // ----- Each of its ends can come about -----

  lemma OneMore(s: State, events: seq<Event>, e: Event)
    requires Possible(s, events) && Enabled(After(s, events), e)
    ensures Possible(s, events + [e]) && After(s, events + [e]) == Apply(After(s, events), e)
  {
    LastEvent(s, events, e);
  }

  /** The first request can be rejected and come to look at the cache with the lock held. */
  lemma Looking(s: State) returns (events: seq<Event>)
    requires Initial(s)
    ensures Possible(s, events) && Invariant(After(s, events))
    ensures var t := After(s, events);
            && 0 in t.phases && t.phases[0] == Holding(s.cached) && t.cached == s.cached && t.issued == s.issued
            && t.renewed == []
  {
    events := [];
    OneMore(s, events, Begin(0));
    events := events + [Begin(0)];
    OneMore(s, events, Respond(0, true));
    events := events + [Respond(0, true)];
    OneMore(s, events, Acquire(0));
    events := events + [Acquire(0)];
    InitialIsInvariant(s);
    InvariantHolds(s, events);
  }

  /** From there its login can succeed with any fresh token, or fail. */
  lemma LoginEnds(s: State, e: Event) returns (events: seq<Event>)
    requires Initial(s) && (e == LoginFails(0) || (e.LoginSucceeds? && e.request == 0 && e.token !in s.issued))
    ensures Possible(s, events) && 0 in After(s, events).phases
    ensures After(s, events).phases[0] == if e.LoginFails? then LoginFailed else Resent(e.token)
    ensures After(s, events).renewed == if e.LoginFails? then [] else [s.cached]
  {
    events := Looking(s);
    OneMore(s, events, Look(0));
    events := events + [Look(0)];
    OneMore(s, events, e);
    events := events + [e];
  }

  /** Or a login elsewhere can come first, and its token be used without another. */
  lemma LoginElsewhere(s: State, token: Token) returns (events: seq<Event>)
    requires Initial(s) && token !in s.issued
    ensures Possible(s, events) && 0 in After(s, events).phases
    ensures After(s, events).phases[0] == Resent(token) && After(s, events).renewed == []
  {
    assert s.cached.Some? ==> s.cached.value in s.issued;
    events := Looking(s);
    OneMore(s, events, OutsideLogin(token));
    events := events + [OutsideLogin(token)];
    OneMore(s, events, Look(0));
    events := events + [Look(0)];
  }
}
