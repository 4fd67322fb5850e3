/**
 * Isolation of pilots. What a pilot owns after any sequence of requests, and every answer the pilot
 * gets, is what the pilot's own requests alone would have produced: other pilots' requests neither
 * change the pilot's rows nor show through in the answers.
 */
module LedgerIsolation {
  import opened Options
  import opened TradeRunStore
  import opened LedgerTables
  import opened LedgerInvariants

  /** The rows a pilot owns. */
  ghost function View(t: Tables, user: Id): Tables {
    Tables(map runId | runId in t.runs && t.runs[runId].userId == user :: t.runs[runId],
           map legId | legId in t.legs && t.legs[legId].userId == user :: t.legs[legId])
  }

  lemma ViewIsValid(t: Tables, user: Id)
    requires Valid(t)
    ensures Valid(View(t, user))
  {
    var v := View(t, user);
    forall legId | legId in v.legs ensures LegBelongs(v, legId) {
      assert LegBelongs(t, legId);
    }
    forall runId | runId in v.runs ensures IsComplete(v, runId) {
      assert IsComplete(t, runId);
      var a, s :| HasLegs(t, runId, a, s);
      assert LegBelongs(t, a) && LegBelongs(t, s);
      assert forall legId :: IsLegOf(v, runId, legId) ==> IsLegOf(t, runId, legId);
      assert HasLegs(v, runId, a, s);
    }
  }

  /** v holds exactly the pilot's rows of t. */
  ghost predicate Shows(v: Tables, t: Tables, user: Id) {
    && (forall runId {:trigger runId in v.runs} {:trigger OwnsRun(t, runId, user)} ::
          (runId in v.runs <==> OwnsRun(t, runId, user)) && (runId in v.runs ==> v.runs[runId] == t.runs[runId]))
    && (forall legId {:trigger legId in v.legs} {:trigger OwnsLeg(t, legId, user)} ::
          (legId in v.legs <==> OwnsLeg(t, legId, user)) && (legId in v.legs ==> v.legs[legId] == t.legs[legId]))
  }

  lemma ShowsIsView(v: Tables, t: Tables, user: Id)
    ensures Shows(v, t, user) <==> v == View(t, user)
  {
    if Shows(v, t, user) {
      assert v.runs == View(t, user).runs;
      assert v.legs == View(t, user).legs;
    }
  }

  // ----- Another pilot's request -----

  lemma SiblingSameOwner(t: Tables, legId: Id, other: Id)
    requires Valid(t) && IsSibling(t, legId, other)
    ensures t.legs[other].userId == t.legs[legId].userId
  {
    assert LegBelongs(t, legId) && LegBelongs(t, other);
  }

  lemma OnlyLegsKeepView(t: Tables, t': Tables, first: Id, second: Id, user: Id)
    requires OnlyLegs(t, t', first, second) && first in t.legs && second in t.legs
    requires t.legs[first].userId != user && t'.legs[first].userId != user
    requires t.legs[second].userId != user && t'.legs[second].userId != user
    ensures Shows(View(t, user), t', user)
  {
  }

  lemma AdvanceByOther(t: Tables, legId: Id, actor: Id, now: Time, user: Id)
    requires Valid(t) && actor != user
    ensures Shows(View(t, user), Advance(t, legId, actor, now).0, user)
  {
    if OwnsLeg(t, legId, actor) {
      var other := AdvanceEffect(t, legId, actor, now);
      SiblingSameOwner(t, legId, other);
      if Advance(t, legId, actor, now).1.LegOut? {
        OnlyLegsKeepView(t, Advance(t, legId, actor, now).0, legId, other, user);
      }
    }
  }

  lemma PurchaseByOther(t: Tables, legId: Id, tx: Transaction, actor: Id, now: Time, user: Id)
    requires Valid(t) && actor != user
    ensures Shows(View(t, user), Purchase(t, legId, tx, actor, now).0, user)
  {
    if OwnsLeg(t, legId, actor) {
      var other := PurchaseEffect(t, legId, tx, actor, now);
      SiblingSameOwner(t, legId, other);
      if Purchase(t, legId, tx, actor, now).1.LegOut? {
        OnlyLegsKeepView(t, Purchase(t, legId, tx, actor, now).0, legId, other, user);
      }
    }
  }

  lemma SellByOther(t: Tables, legId: Id, tx: Transaction, actor: Id, now: Time, user: Id)
    requires actor != user
    ensures Shows(View(t, user), Sell(t, legId, tx, actor, now).0, user)
  {
  }

  lemma UpdateByOther(t: Tables, legId: Id, edit: Edit, actor: Id, user: Id)
    requires actor != user
    ensures Shows(View(t, user), Update(t, legId, edit, actor).0, user)
  {
  }

  lemma FinalizeByOther(t: Tables, runId: Id, actor: Id, now: Time, user: Id)
    requires actor != user
    ensures Shows(View(t, user), Finalize(t, runId, actor, now).0, user)
  {
  }

  lemma WriteOffByOther(t: Tables, runId: Id, actor: Id, now: Time, user: Id)
    requires Valid(t) && actor != user
    ensures Shows(View(t, user), WriteOff(t, runId, actor, now).0, user)
  {
    if OwnsRun(t, runId, actor) {
      var a, s := WriteOffEffect(t, runId, actor, now);
      assert LegBelongs(t, a) && LegBelongs(t, s);
    }
  }

  lemma CreateByOther(t: Tables, op: Op, actor: Id, now: Time, user: Id)
    requires Valid(t) && actor != user && op.CreateRun?
    ensures Shows(View(t, user), Create(t, op, actor, now).0, user)
  {
  }

  lemma DeleteByOther(t: Tables, runId: Id, actor: Id, user: Id)
    requires Valid(t) && actor != user
    ensures Shows(View(t, user), Delete(t, runId, actor).0, user)
  {
    forall legId | OwnsLeg(t, legId, user) ensures OwnsRun(t, t.legs[legId].runId, user) {
      assert LegBelongs(t, legId);
    }
  }

  /** A request by one pilot leaves every row of every other pilot as it was. */
  lemma OthersUntouched(t: Tables, r: Request, user: Id)
    requires Valid(t) && r.user != user
    ensures View(Step(t, r).0, user) == View(t, user)
  {
    match r.op {
      case CreateRun(_, _, _, _, _, _) => CreateByOther(t, r.op, r.user, r.now, user);
      case AdvanceLeg(legId) => AdvanceByOther(t, legId, r.user, r.now, user);
      case RecordPurchase(legId, tx) => PurchaseByOther(t, legId, tx, r.user, r.now, user);
      case RecordSale(legId, tx) => SellByOther(t, legId, tx, r.user, r.now, user);
      case UpdateTransaction(legId, edit) => UpdateByOther(t, legId, edit, r.user, user);
      case FinalizeRun(runId) => FinalizeByOther(t, runId, r.user, r.now, user);
      case WriteOffRun(runId) => WriteOffByOther(t, runId, r.user, r.now, user);
      case DeleteRun(runId) => DeleteByOther(t, runId, r.user, user);
    }
    ShowsIsView(View(t, user), Step(t, r).0, user);
  }

  // ----- The pilot's own request -----

  /** The pilot's own request answers and edits the same whether or not other pilots' rows are there. */
  ghost predicate SeesOnlyView(t: Tables, user: Id, full: (Tables, Outcome), own: (Tables, Outcome)) {
    full.1 == own.1 && Shows(own.0, full.0, user)
  }

  lemma ViewShows(t: Tables, user: Id)
    ensures Shows(View(t, user), t, user)
  {
  }

  lemma AdvanceOnView(t: Tables, legId: Id, user: Id, now: Time)
    requires Valid(t)
    ensures SeesOnlyView(t, user, Advance(t, legId, user, now), Advance(View(t, user), legId, user, now))
  {
    var v := View(t, user);
    ViewIsValid(t, user);
    ViewShows(t, user);
    if OwnsLeg(t, legId, user) {
      var other := AdvanceEffect(t, legId, user, now);
      var other' := AdvanceEffect(v, legId, user, now);
      SiblingSameOwner(t, legId, other);
      SameSibling(t, legId, other, other', user);
    }
  }

  lemma SameSibling(t: Tables, legId: Id, other: Id, other': Id, user: Id)
    requires Valid(t) && IsSibling(t, legId, other) && IsSibling(View(t, user), legId, other')
    ensures other' == other
  {
    var a, s := SiblingOf(t, legId);
    assert IsLegOf(t, t.legs[legId].runId, other) && IsLegOf(t, t.legs[legId].runId, other');
  }

  lemma PurchaseOnView(t: Tables, legId: Id, tx: Transaction, user: Id, now: Time)
    requires Valid(t)
    ensures SeesOnlyView(t, user, Purchase(t, legId, tx, user, now), Purchase(View(t, user), legId, tx, user, now))
  {
    var v := View(t, user);
    ViewIsValid(t, user);
    ViewShows(t, user);
    if OwnsLeg(t, legId, user) {
      var other := PurchaseEffect(t, legId, tx, user, now);
      var other' := PurchaseEffect(v, legId, tx, user, now);
      SiblingSameOwner(t, legId, other);
      SameSibling(t, legId, other, other', user);
    }
  }

  lemma SellOnView(t: Tables, legId: Id, tx: Transaction, user: Id, now: Time)
    ensures SeesOnlyView(t, user, Sell(t, legId, tx, user, now), Sell(View(t, user), legId, tx, user, now))
  {
    ViewShows(t, user);
  }

  lemma UpdateOnView(t: Tables, legId: Id, edit: Edit, user: Id)
    requires Valid(t)
    ensures SeesOnlyView(t, user, Update(t, legId, edit, user), Update(View(t, user), legId, edit, user))
  {
    ViewShows(t, user);
    if OwnsLeg(t, legId, user) {
      assert LegBelongs(t, legId);
      assert InFinalizedRun(t, legId) <==> InFinalizedRun(View(t, user), legId);
    }
  }

  lemma FinalizeOnView(t: Tables, runId: Id, user: Id, now: Time)
    requires Valid(t)
    ensures SeesOnlyView(t, user, Finalize(t, runId, user, now), Finalize(View(t, user), runId, user, now))
  {
    var v := View(t, user);
    ViewShows(t, user);
    if OwnsRun(t, runId, user) {
      forall legId ensures IsLegOf(t, runId, legId) <==> IsLegOf(v, runId, legId) {
        if IsLegOf(t, runId, legId) {
          assert LegBelongs(t, legId);
        }
      }
    }
  }

  lemma WriteOffOnView(t: Tables, runId: Id, user: Id, now: Time)
    requires Valid(t)
    ensures SeesOnlyView(t, user, WriteOff(t, runId, user, now), WriteOff(View(t, user), runId, user, now))
  {
    var v := View(t, user);
    ViewIsValid(t, user);
    ViewShows(t, user);
    if OwnsRun(t, runId, user) {
      var a, s := WriteOffEffect(t, runId, user, now);
      var a', s' := WriteOffEffect(v, runId, user, now);
      assert LegBelongs(t, a) && LegBelongs(t, s);
      assert IsLegOf(t, runId, a') && IsLegOf(t, runId, s');
    }
  }

  lemma DeleteOnView(t: Tables, runId: Id, user: Id)
    requires Valid(t)
    ensures SeesOnlyView(t, user, Delete(t, runId, user), Delete(View(t, user), runId, user))
  {
    ViewShows(t, user);
  }

  lemma CreateOnView(t: Tables, op: Op, user: Id, now: Time)
    requires Valid(t) && op.CreateRun? && IdsFree(t, op)
    ensures SeesOnlyView(t, user, Create(t, op, user, now), Create(View(t, user), op, user, now))
  {
    ViewShows(t, user);
  }

  lemma OwnStepOnView(t: Tables, r: Request)
    requires Valid(t) && (r.op.CreateRun? ==> IdsFree(t, r.op))
    ensures Step(t, r).1 == Step(View(t, r.user), r).1
    ensures View(Step(t, r).0, r.user) == Step(View(t, r.user), r).0
  {
    match r.op {
      case CreateRun(_, _, _, _, _, _) => CreateOnView(t, r.op, r.user, r.now);
      case AdvanceLeg(legId) => AdvanceOnView(t, legId, r.user, r.now);
      case RecordPurchase(legId, tx) => PurchaseOnView(t, legId, tx, r.user, r.now);
      case RecordSale(legId, tx) => SellOnView(t, legId, tx, r.user, r.now);
      case UpdateTransaction(legId, edit) => UpdateOnView(t, legId, edit, r.user);
      case FinalizeRun(runId) => FinalizeOnView(t, runId, r.user, r.now);
      case WriteOffRun(runId) => WriteOffOnView(t, runId, r.user, r.now);
      case DeleteRun(runId) => DeleteOnView(t, runId, r.user);
    }
    ShowsIsView(Step(View(t, r.user), r).0, Step(t, r).0, r.user);
  }

  // ----- Whole runs -----

  /** Every id drawn for a new row is one not in use. */
  ghost predicate IdsAlwaysFree(t: Tables, requests: seq<Request>)
    decreases |requests|
  {
    requests != [] ==>
      && (requests[0].op.CreateRun? ==> IdsFree(t, requests[0].op))
      && IdsAlwaysFree(Step(t, requests[0]).0, requests[1..])
  }

  ghost function OwnRequests(requests: seq<Request>, user: Id): seq<Request> {
    if requests == [] then []
    else (if requests[0].user == user then [requests[0]] else []) + OwnRequests(requests[1..], user)
  }

  /** The answers the pilot got, in order. */
  ghost function OwnAnswers(t: Tables, requests: seq<Request>, user: Id): seq<Outcome>
    decreases |requests|
  {
    if requests == [] then []
    else (if requests[0].user == user then [Step(t, requests[0]).1] else [])
         + OwnAnswers(Step(t, requests[0]).0, requests[1..], user)
  }

  /** With every other pilot's request struck out, the pilot is left with the same rows and the same answers. */
  lemma {:induction false} PilotsAreIsolated(t: Tables, requests: seq<Request>, user: Id)
    requires Valid(t) && IdsAlwaysFree(t, requests)
    ensures View(After(t, requests), user) == After(View(t, user), OwnRequests(requests, user))
    ensures OwnAnswers(t, requests, user) == OwnAnswers(View(t, user), OwnRequests(requests, user), user)
    decreases |requests|
  {
    if requests != [] {
      var r, rest := requests[0], requests[1..];
      var t' := Step(t, r).0;
      StepKeepsValid(t, r);
      PilotsAreIsolated(t', rest, user);
      if r.user == user {
        OwnStepOnView(t, r);
        FirstOwn(View(t, user), r, OwnRequests(rest, user), user);
      } else {
        OthersUntouched(t, r, user);
        assert OwnRequests(requests, user) == OwnRequests(rest, user);
      }
    }
  }

  lemma FirstOwn(v: Tables, r: Request, rest: seq<Request>, user: Id)
    requires r.user == user
    ensures After(v, [r] + rest) == After(Step(v, r).0, rest)
    ensures OwnAnswers(v, [r] + rest, user) == [Step(v, r).1] + OwnAnswers(Step(v, r).0, rest, user)
  {
    assert ([r] + rest)[1..] == rest;
  }
}
