/** The client-side loop that brings a leg up to its purchase or sale before recording it. */
module LedgerClient {
  import opened Options
  import opened TradeRunStore
  import opened LedgerTables
  import opened LedgerInvariants
  import opened LedgerIsolation
  import opened LedgerService

  /**
   * The leg once every milestone before its transaction is stamped, each by a request of its own: the
   * n-th request from now on reads clock(n).
   */
  function CaughtUp(leg: TradeLeg, clock: nat -> Time, n: nat): TradeLeg {
    var arrived := leg.(reachedAt := OrNow(leg.reachedAt, clock(n)));
    if leg.legType == Sale && leg.cargoTransferType == Manual
    then arrived.(transferredAt := OrNow(leg.transferredAt, clock(if leg.reachedAt.None? then n + 1 else n)))
    else arrived
  }

  /** Each advance strictly lowers the number of unset milestones. */
  lemma AdvanceLowersUnset(leg: TradeLeg, now: Time)
    requires NextUnsetField(leg).Some?
    ensures UnsetCount(leg.Stamp(NextUnsetField(leg).value, now)) == UnsetCount(leg) - 1
  {
    NextUnsetFieldCases(leg);
  }

  /** One advance of an owned leg whose next step is no transaction: never refused, one milestone closer. */
  lemma AdvanceOnce(t: Tables, legId: Id, user: Id, clock: nat -> Time, n: nat)
    requires Valid(t) && OwnsLeg(t, legId, user)
    requires NextUnsetField(t.legs[legId]).Some? && NextUnsetField(t.legs[legId]) != Some(TransactionCompletedAt)
    ensures var leg := t.legs[legId].Stamp(NextUnsetField(t.legs[legId]).value, clock(n));
            var (t', answer) := Advance(t, legId, user, clock(n));
            && answer == LegOut(leg) && legId in t'.legs && t'.legs[legId] == leg && t'.runs == t.runs
            && OwnsLeg(t', legId, user)
            && leg.transactionCompletedAt == t.legs[legId].transactionCompletedAt
            && UnsetCount(leg) < UnsetCount(t.legs[legId])
            && (leg.transactionCompletedAt.None? ==>
                  t'.legs == t.legs[legId := leg] && CaughtUp(leg, clock, n + 1) == CaughtUp(t.legs[legId], clock, n))
  {
    var now := clock(n);
    var other := AdvanceEffect(t, legId, user, now);
    assert LegBelongs(t, legId);
    NextUnsetFieldCases(t.legs[legId]);
    AdvanceLowersUnset(t.legs[legId], now);
    var leg := t.legs[legId].Stamp(NextUnsetField(t.legs[legId]).value, now);
    if leg.transactionCompletedAt.None? {
      assert Advance(t, legId, user, now).0.legs == t.legs[legId := leg];
    }
  }

  lemma CaughtUpIsNext(leg: TradeLeg, clock: nat -> Time, n: nat)
    requires NextUnsetField(leg) == Some(TransactionCompletedAt)
    ensures CaughtUp(leg, clock, n) == leg && leg.transactionCompletedAt.None?
  {
    NextUnsetFieldCases(leg);
  }

  /** Where the client stops asking. */
  predicate NothingToCatchUp(leg: TradeLeg) {
    NextUnsetField(leg) == Some(TransactionCompletedAt) || NextUnsetField(leg) == None
  }

  /** The requests are all of other pilots. */
  predicate AllOthers(requests: seq<Request>, user: Id) {
    forall k :: 0 <= k < |requests| ==> requests[k].user != user
  }

  lemma {:induction false} OthersUntouchedByAll(t: Tables, requests: seq<Request>, user: Id)
    requires Valid(t) && AllOthers(requests, user)
    ensures View(After(t, requests), user) == View(t, user)
    decreases |requests|
  {
    if requests != [] {
      OthersUntouched(t, requests[0], user);
      StepKeepsValid(t, requests[0]);
      OthersUntouchedByAll(Step(t, requests[0]).0, requests[1..], user);
    }
  }

  /** The pilot's rows after some requests of the loop: their leg is the one last answered, on its way. */
  ghost predicate UnderWay(was: Tables, v: Tables, legId: Id, leg: TradeLeg, clock: nat -> Time, requests: nat) {
    && legId in was.legs && !NothingToCatchUp(was.legs[legId])
    && v.runs == was.runs && legId in v.legs && v.legs[legId] == leg
    && leg.transactionCompletedAt == was.legs[legId].transactionCompletedAt
    && (leg.transactionCompletedAt.None? ==>
          && v.legs == was.legs[legId := leg]
          && CaughtUp(leg, clock, requests) == CaughtUp(was.legs[legId], clock, 0))
  }

  /** What one request of the loop does to the pilot's rows, wherever their leg now stands. */
  lemma AdvanceOnView(t: Tables, legId: Id, user: Id, now: Time)
    requires Valid(t)
    ensures var v := View(t, user);
            var (t', answer) := Advance(t, legId, user, now);
            && Valid(v)
            && (View(t', user), answer) == Advance(v, legId, user, now)
            && (answer.LegOut? <==> legId in v.legs && !NothingToCatchUp(v.legs[legId]))
            && (!answer.LegOut? ==> t' == t && answer == RefusedAdvance(v, legId))
  {
    ViewIsValid(t, user);
    OwnStepOnView(t, Request(user, now, LedgerTables.AdvanceLeg(legId)));
    if OwnsLeg(t, legId, user) {
      var other := AdvanceEffect(t, legId, user, now);
    }
  }

  /** The error an advance gets on a leg that cannot be advanced. */
  ghost function RefusedAdvance(v: Tables, legId: Id): Outcome {
    if legId !in v.legs then NotFound
    else if NextUnsetField(v.legs[legId]).None? then Refused(LegFinalized)
    else Refused(NeedsTransaction)
  }

  /** What the pilot's rows become and what the loop answers when its copy of the leg has something to catch up. */
  ghost predicate CaughtUpOrRefused(
    was: Tables, now: Tables, legId: Id, clock: nat -> Time, result: Result<TradeLeg, Outcome>
  ) {
    if legId !in was.legs || NothingToCatchUp(was.legs[legId]) then
      result == Err(RefusedAdvance(was, legId)) && now == was
    else
      && result.Ok? && now.runs == was.runs
      && legId in now.legs && now.legs[legId] == result.value
      && if was.legs[legId].transactionCompletedAt.None? then
           && now.legs == was.legs[legId := CaughtUp(was.legs[legId], clock, 0)]
           && NextUnsetField(result.value) == Some(TransactionCompletedAt)
         else
           NextUnsetField(result.value).None? && result.value.finalizedAt.Some?
  }

  /** Where the loop stands before its request of that number. */
  ghost predicate Standing(was: Tables, v: Tables, legId: Id, leg: TradeLeg, clock: nat -> Time, requests: nat) {
    if requests == 0 then v == was else UnderWay(was, v, legId, leg, clock, requests)
  }

  /** A request is refused as a first one only, and otherwise brings the leg one milestone closer. */
  ghost predicate Answered(
    was: Tables, v: Tables, legId: Id, leg: TradeLeg, clock: nat -> Time, requests: nat, answer: Outcome
  ) {
    if answer.LegOut? then
      UnderWay(was, v, legId, answer.leg, clock, requests + 1)
      && (requests > 0 ==> UnsetCount(answer.leg) < UnsetCount(leg))
    else
      CaughtUpOrRefused(was, v, legId, clock, Err(answer))
  }

  lemma AdvanceAnswers(was: Tables, t: Tables, legId: Id, leg: TradeLeg, user: Id, clock: nat -> Time, requests: nat)
    requires Valid(t) && !NothingToCatchUp(leg) && Standing(was, View(t, user), legId, leg, clock, requests)
    ensures var (t', answer) := Advance(t, legId, user, clock(requests));
            Answered(was, View(t', user), legId, leg, clock, requests, answer)
  {
    var v := View(t, user);
    AdvanceOnView(t, legId, user, clock(requests));
    if legId in v.legs && !NothingToCatchUp(v.legs[legId]) {
      AdvanceOnce(v, legId, user, clock, requests);
    }
  }

  /** The loop's next request, after those of other pilots that come before it. */
  method AdvanceAfter(
    ledger: Ledger, others: seq<Request>, legId: Id, user: Id, clock: nat -> Time, requests: nat,
    ghost was: Tables, ghost leg: TradeLeg
  ) returns (outcome: Outcome)
    requires Valid(ledger.State()) && AllOthers(others, user) && !NothingToCatchUp(leg)
    requires Standing(was, View(ledger.State(), user), legId, leg, clock, requests)
    modifies ledger
    ensures Valid(ledger.State())
    ensures Answered(was, View(ledger.State(), user), legId, leg, clock, requests, outcome)
  {
    OthersUntouchedByAll(ledger.State(), others, user);
    ledger.HandleAll(others);
    AdvanceAnswers(was, ledger.State(), legId, leg, user, clock, requests);
    outcome := ledger.AdvanceLeg(legId, user, clock(requests));
  }

  /** Where the loop stops it has caught up. */
  lemma Stopped(was: Tables, v: Tables, legId: Id, leg: TradeLeg, clock: nat -> Time, requests: nat)
    requires UnderWay(was, v, legId, leg, clock, requests) && NothingToCatchUp(leg)
    ensures CaughtUpOrRefused(was, v, legId, clock, Ok(leg))
  {
    NextUnsetFieldCases(leg);
    if NextUnsetField(leg).Some? {
      CaughtUpIsNext(leg, clock, requests);
    }
  }

  /**
   * Advances the pilot's leg until its transaction is next, or nothing is. The copy it starts from
   * may be out of date, and other pilots' requests come between its own: between(n) is what the
   * server handles before the n-th. The first request is refused exactly when the server's leg is gone,
   * stands before its transaction or is done, and no later one is. Before the transaction the loop
   * stops right there and touches no other row; after it, it runs on to the end and finalizes the leg.
   */
  method CatchUpBeforeTransaction(
    ledger: Ledger, legId: Id, loaded: TradeLeg, user: Id, clock: nat -> Time, between: nat -> seq<Request>
  ) returns (result: Result<TradeLeg, Outcome>)
    requires Valid(ledger.State()) && forall n :: AllOthers(between(n), user)
    modifies ledger
    ensures Valid(ledger.State())
    ensures NothingToCatchUp(loaded) ==> result == Ok(loaded) && ledger.State() == old(ledger.State())
    ensures !NothingToCatchUp(loaded) ==>
              CaughtUpOrRefused(old(View(ledger.State(), user)), View(ledger.State(), user), legId, clock, result)
  {
    var leg, requests := loaded, 0;
    ghost var was := View(ledger.State(), user);
    while !NothingToCatchUp(leg)
      invariant Valid(ledger.State())
      invariant requests == 0 ==> leg == loaded && ledger.State() == old(ledger.State())
      invariant requests > 0 ==> !NothingToCatchUp(loaded)
      invariant Standing(was, View(ledger.State(), user), legId, leg, clock, requests)
      decreases requests == 0, UnsetCount(leg)
    {
      var outcome := AdvanceAfter(ledger, between(requests), legId, user, clock, requests, was, leg);
      match outcome {
        case LegOut(advanced) => leg, requests := advanced, requests + 1;
        case _ => return Err(outcome);
      }
    }
    result := Ok(leg);
    if requests > 0 {
      Stopped(was, View(ledger.State(), user), legId, leg, clock, requests);
    }
  }
}
