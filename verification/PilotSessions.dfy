/** The shared cache and lock, with one method per stretch of code between two awaits. */
module PilotSessions {
  import opened Options
  import opened PilotLogin

  class Sessions {
    var cached: Option<Token>
    var lockHolder: Option<RequestId>
    var phases: map<RequestId, Phase>
    ghost var issued: seq<Token>
    ghost var sends: map<RequestId, nat>
    ghost var renewed: seq<Option<Token>>

    ghost function Now(): State
      reads this
    {
      State(cached, lockHolder, phases, issued, sends, renewed)
    }

    constructor (cached: Option<Token>)
      ensures Initial(Now()) && Invariant(Now()) && OneLogin(Now()) && this.cached == cached
    {
      this.cached, lockHolder, phases := cached, None, map[];
      issued, sends, renewed := if cached.None? then [] else [cached.value], map[], [];
    }

    /** A request reads the cached token and is sent with it. */
    method Send(p: RequestId) returns (token: Option<Token>)
      requires Invariant(Now()) && Enabled(Now(), Begin(p))
      modifies this
      ensures Now() == Apply(old(Now()), Begin(p)) && Invariant(Now()) && OneLogin(Now())
      ensures token == old(cached) == cached && phases == old(phases)[p := Sent(token)]
    {
      StepKeeps(Now(), Begin(p));
      token := cached;
      phases := phases[p := Sent(token)];
      sends := sends[p := 1];
    }

    /** Only a 401 asks for a new login; any other response ends the flow. */
    method Receive(p: RequestId, statusCode: int)
      requires Invariant(Now()) && Enabled(Now(), Respond(p, statusCode == 401))
      modifies this
      ensures Now() == Apply(old(Now()), Respond(p, statusCode == 401)) && Invariant(Now()) && OneLogin(Now())
      ensures phases[p] == Waiting(old(phases)[p].token) <==> statusCode == 401
      ensures phases[p] == Finished <==> statusCode != 401
      ensures cached == old(cached) && lockHolder == old(lockHolder)
    {
      StepKeeps(Now(), Respond(p, statusCode == 401));
      if statusCode != 401 {
        phases := phases[p := Finished];
        return;
      }
      phases := phases[p := Waiting(phases[p].token)];
    }

    method TakeLock(p: RequestId)
      requires Invariant(Now()) && Enabled(Now(), Acquire(p))
      modifies this
      ensures Now() == Apply(old(Now()), Acquire(p)) && Invariant(Now()) && OneLogin(Now())
      ensures forall q :: q in phases && HasLock(phases[q]) <==> q == p
      ensures phases[p] == Holding(old(phases)[p].rejected) && cached == old(cached)
    {
      StepKeeps(Now(), Acquire(p));
      lockHolder := Some(p);
      phases := phases[p := Holding(phases[p].rejected)];
      forall q | q in phases ensures HasLock(phases[q]) <==> q == p {
        assert RequestInvariant(Now(), q);
      }
    }

    /** With the lock held: reuse a token another request has fetched meanwhile, or open the login. */
    method LookAtCache(p: RequestId) returns (reused: Option<Token>)
      requires Invariant(Now()) && Enabled(Now(), Look(p))
      modifies this
      ensures Now() == Apply(old(Now()), Look(p)) && Invariant(Now()) && OneLogin(Now())
      ensures reused.Some? <==> cached.Some? && cached != old(phases)[p].rejected
      ensures reused.None? ==> phases[p] == LoggingIn(old(phases)[p].rejected) && lockHolder == Some(p)
      ensures reused.Some? ==> reused == cached && phases[p] == Resent(cached.value) && lockHolder.None?
      ensures old(phases)[p].rejected in renewed ==> reused.Some?
      ensures cached == old(cached) && issued == old(issued) && renewed == old(renewed)
    {
      StepKeeps(Now(), Look(p));
      ghost var next := Apply(Now(), Look(p));
      var rejected := phases[p].rejected;
      assert rejected in renewed ==> Newer(cached, rejected);
      if cached.Some? && cached != rejected {
        lockHolder := None;
        phases := phases[p := Resent(cached.value)];
        sends := sends[p := SendsOf(Now(), p) + 1];
        assert Now() == next;
        return cached;
      }
      phases := phases[p := LoggingIn(rejected)];
      assert Now() == next;
      reused := None;
    }

    /** The browser login came back: overwrite the cache, give up the lock, send again. */
    method FinishLogin(p: RequestId, token: Token)
      requires Invariant(Now()) && Enabled(Now(), LoginSucceeds(p, token))
      modifies this
      ensures Now() == Apply(old(Now()), LoginSucceeds(p, token)) && Invariant(Now()) && OneLogin(Now())
      ensures old(phases)[p].rejected !in old(renewed) && cached == Some(token) && lockHolder.None?
      ensures phases[p] == Resent(token) && renewed == old(renewed) + [old(phases)[p].rejected]
    {
      StepKeeps(Now(), LoginSucceeds(p, token));
      ghost var next := Apply(Now(), LoginSucceeds(p, token));
      sends := sends[p := SendsOf(Now(), p) + 1];
      cached := Some(token);
      issued, renewed := issued + [token], renewed + [phases[p].rejected];
      lockHolder := None;
      phases := phases[p := Resent(token)];
      assert Now() == next;
    }

    method AbandonLogin(p: RequestId)
      requires Invariant(Now()) && Enabled(Now(), LoginFails(p))
      modifies this
      ensures Now() == Apply(old(Now()), LoginFails(p)) && Invariant(Now()) && OneLogin(Now())
      ensures cached == old(cached) && renewed == old(renewed) && lockHolder.None? && phases[p] == LoginFailed
    {
      StepKeeps(Now(), LoginFails(p));
      lockHolder := None;
      phases := phases[p := LoginFailed];
    }

    /** The startup login, outside any request and without the lock. */
    method LogInOutside(token: Token)
      requires Invariant(Now()) && Enabled(Now(), OutsideLogin(token))
      modifies this
      ensures Now() == Apply(old(Now()), OutsideLogin(token)) && Invariant(Now()) && OneLogin(Now())
      ensures forall rejected :: rejected in renewed ==> Newer(cached, rejected)
    {
      StepKeeps(Now(), OutsideLogin(token));
      cached := Some(token);
      issued := issued + [token];
    }
  }

  lemma StepKeeps(s: State, e: Event)
    requires Invariant(s) && Enabled(s, e)
    ensures Invariant(Apply(s, e)) && OneLogin(Apply(s, e))
    ensures forall p :: p in s.phases && s.phases[p].LoggingIn? ==> s.phases[p].rejected !in s.renewed
  {
    ApplyKeepsInvariant(s, e);
    InvariantMeansOneLogin(Apply(s, e));
    forall p | p in s.phases && s.phases[p].LoggingIn? ensures s.phases[p].rejected !in s.renewed {
      assert RequestInvariant(s, p);
    }
  }
}
