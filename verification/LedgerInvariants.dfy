/** What holds after any sequence of ledger requests by any pilots. */
module LedgerInvariants {
  import opened Options
  import opened TradeRunStore
  import opened LedgerTables

  // ----- The run's two legs -----

  lemma LegsOfRun(t: Tables, runId: Id) returns (a: Id, s: Id)
    requires Valid(t) && runId in t.runs
    ensures HasLegs(t, runId, a, s) && a != s
    ensures LegOfType(t, runId, Acquisition) == Some(a) && LegOfType(t, runId, Sale) == Some(s)
  {
    assert IsComplete(t, runId);
    a, s :| HasLegs(t, runId, a, s);
  }

  lemma SiblingOf(t: Tables, legId: Id) returns (a: Id, s: Id)
    requires Valid(t) && legId in t.legs
    ensures HasLegs(t, t.legs[legId].runId, a, s) && a != s && (legId == a || legId == s)
    ensures Sibling(t, legId) == Some(if legId == a then s else a)
  {
    assert LegBelongs(t, legId);
    a, s := LegsOfRun(t, t.legs[legId].runId);
    assert IsLegOf(t, t.legs[legId].runId, legId);
    assert IsSibling(t, legId, if legId == a then s else a);
  }

  // ----- Every request keeps the tables valid -----

  ghost predicate SameShape(leg: TradeLeg, leg': TradeLeg) {
    leg'.userId == leg.userId && leg'.runId == leg.runId && leg'.legType == leg.legType
  }

  /** No row added, removed or handed to another pilot, run or type. */
  ghost predicate SameRows(t: Tables, t': Tables) {
    && t'.runs.Keys == t.runs.Keys && t'.legs.Keys == t.legs.Keys
    && (forall runId :: runId in t.runs ==> t'.runs[runId].userId == t.runs[runId].userId)
    && (forall legId :: legId in t.legs ==> SameShape(t.legs[legId], t'.legs[legId]))
  }

  lemma SameRowsKeepValid(t: Tables, t': Tables)
    requires Valid(t) && SameRows(t, t')
    requires forall legId :: legId in t'.legs ==> LegInvariant(t'.legs[legId])
    requires forall legId :: InFinalizedRun(t', legId) ==> t'.legs[legId].finalizedAt.Some?
    ensures Valid(t')
  {
    forall legId | legId in t'.legs ensures LegBelongs(t', legId) {
      assert LegBelongs(t, legId);
    }
    forall runId | runId in t'.runs ensures IsComplete(t', runId) {
      assert IsComplete(t, runId);
      var a, s :| HasLegs(t, runId, a, s);
      assert forall legId :: IsLegOf(t', runId, legId) ==> IsLegOf(t, runId, legId);
      assert HasLegs(t', runId, a, s);
    }
  }

  /** Adding a run with two untouched legs of its own. */
  lemma AddRunKeepsValid(t: Tables, runId: Id, run: TradeRun, a: Id, acquisition: TradeLeg, s: Id, sale: TradeLeg)
    requires Valid(t) && runId !in t.runs && a !in t.legs && s !in t.legs && a != s
    requires run.finalizedAt.None?
    requires acquisition.legType == Acquisition && acquisition.runId == runId && acquisition.userId == run.userId
    requires sale.legType == Sale && sale.runId == runId && sale.userId == run.userId
    requires LegInvariant(acquisition) && LegInvariant(sale)
    ensures Valid(Tables(t.runs[runId := run], t.legs[a := acquisition][s := sale]))
  {
    var t' := Tables(t.runs[runId := run], t.legs[a := acquisition][s := sale]);
    assert forall legId :: legId in t.legs ==> LegBelongs(t, legId);
    forall legId | legId in t'.legs ensures LegBelongs(t', legId) {
    }
    forall other | other in t'.runs ensures IsComplete(t', other) {
      if other == runId {
        assert HasLegs(t', runId, a, s);
      } else {
        assert IsComplete(t, other);
        var a', s' :| HasLegs(t, other, a', s');
        assert forall legId :: IsLegOf(t', other, legId) ==> IsLegOf(t, other, legId);
        assert HasLegs(t', other, a', s');
      }
    }
  }

  lemma CreateKeepsValid(t: Tables, op: Op, user: Id, now: Time)
    requires Valid(t) && op.CreateRun?
    ensures Valid(Create(t, op, user, now).0)
  {
    if IdsFree(t, op) {
      AddRunKeepsValid(t, op.newRun, NewRun(op.route, op.ship, user, now),
                       op.newAcquisition, NewAcquisition(op.route, op.quantityScu, op.newRun, user, now),
                       op.newSale, NewSale(op.route, op.quantityScu, op.newRun, user));
    }
  }

  lemma DeleteKeepsValid(t: Tables, runId: Id, user: Id)
    requires Valid(t)
    ensures Valid(Delete(t, runId, user).0)
  {
    if OwnsRun(t, runId, user) {
      var t' := Delete(t, runId, user).0;
      forall legId | legId in t'.legs ensures LegBelongs(t', legId) {
        assert LegBelongs(t, legId);
      }
      forall other | other in t'.runs ensures IsComplete(t', other) {
        assert IsComplete(t, other);
        var a, s :| HasLegs(t, other, a, s);
        assert IsLegOf(t', other, a) && IsLegOf(t', other, s);
        assert forall legId :: IsLegOf(t', other, legId) ==> IsLegOf(t, other, legId);
        assert HasLegs(t', other, a, s);
      }
    }
  }

  /** A request about one leg changes that leg and at most its sibling. */
  ghost predicate OnlyLegs(t: Tables, t': Tables, first: Id, second: Id) {
    && t'.runs == t.runs && t'.legs.Keys == t.legs.Keys
    && forall legId :: legId in t.legs && legId != first && legId != second ==> t'.legs[legId] == t.legs[legId]
  }

  /** The edited leg still satisfies its invariant and is no less finalized. */
  ghost predicate FitEdit(leg: TradeLeg, leg': TradeLeg) {
    SameShape(leg, leg') && LegInvariant(leg') && (leg.finalizedAt.Some? ==> leg'.finalizedAt.Some?)
  }

  lemma FitEditsKeepValid(t: Tables, t': Tables, first: Id, second: Id)
    requires Valid(t) && OnlyLegs(t, t', first, second) && first in t.legs && second in t.legs
    requires FitEdit(t.legs[first], t'.legs[first]) && FitEdit(t.legs[second], t'.legs[second])
    ensures Valid(t')
  {
    forall legId | legId in t'.legs
      ensures SameShape(t.legs[legId], t'.legs[legId]) && LegInvariant(t'.legs[legId])
      ensures InFinalizedRun(t', legId) ==> t'.legs[legId].finalizedAt.Some?
    {
      assert LegBelongs(t, legId);
    }
    SameRowsKeepValid(t, t');
  }

  lemma AdvanceKeepsValid(t: Tables, legId: Id, user: Id, now: Time)
    requires Valid(t)
    ensures Valid(Advance(t, legId, user, now).0)
  {
    if OwnsLeg(t, legId, user) {
      var other := AdvanceEffect(t, legId, user, now);
      assert LegBelongs(t, legId) && LegBelongs(t, other);
      NextUnsetFieldCases(t.legs[legId]);
      if Advance(t, legId, user, now).1.LegOut? {
        FitEditsKeepValid(t, Advance(t, legId, user, now).0, legId, other);
      }
    }
  }

  /** An advance stamps the leg's next milestone; the last one also starts the sibling. */
  lemma AdvanceEffect(t: Tables, legId: Id, user: Id, now: Time) returns (other: Id)
    requires Valid(t) && OwnsLeg(t, legId, user)
    ensures IsSibling(t, legId, other)
    ensures var next := NextUnsetField(t.legs[legId]);
            var (t', answer) := Advance(t, legId, user, now);
            if next.None? || next == Some(TransactionCompletedAt) then
              t' == t && answer.Refused?
            else
              && OnlyLegs(t, t', legId, other)
              && answer == LegOut(t'.legs[legId])
              && t'.legs[legId] == t.legs[legId].Stamp(next.value, now)
              && t'.legs[other] ==
                   if next == Some(FinalizedAt) && t.legs[other].startedAt.None?
                   then t.legs[other].(startedAt := Some(now)) else t.legs[other]
  {
    var a, s := SiblingOf(t, legId);
    other := if legId == a then s else a;
    var next := NextUnsetField(t.legs[legId]);
    if next.Some? && next != Some(TransactionCompletedAt) {
      var stamped := t.(legs := t.legs[legId := t.legs[legId].Stamp(next.value, now)]);
      SiblingAfterEdit(t, stamped, legId, other);
      AdvanceWithSibling(t, legId, user, now, stamped, other);
    }
  }

  lemma AdvanceWithSibling(t: Tables, legId: Id, user: Id, now: Time, stamped: Tables, other: Id)
    requires OwnsLeg(t, legId, user) && other in t.legs && other != legId
    requires NextUnsetField(t.legs[legId]).Some? && NextUnsetField(t.legs[legId]) != Some(TransactionCompletedAt)
    requires stamped == t.(legs := t.legs[legId := t.legs[legId].Stamp(NextUnsetField(t.legs[legId]).value, now)])
    requires Sibling(stamped, legId) == Some(other)
    ensures Advance(t, legId, user, now).1 == LegOut(stamped.legs[legId])
    ensures Advance(t, legId, user, now).0 ==
      if NextUnsetField(t.legs[legId]) == Some(FinalizedAt) && t.legs[other].startedAt.None?
      then stamped.(legs := stamped.legs[other := t.legs[other].(startedAt := Some(now))])
      else stamped
  {
  }

  /** Editing a leg in place does not change which leg is its sibling. */
  lemma SiblingAfterEdit(t: Tables, t': Tables, legId: Id, other: Id)
    requires Valid(t) && legId in t.legs && Sibling(t, legId) == Some(other)
    requires t'.legs.Keys == t.legs.Keys
    requires forall l :: l in t.legs ==> t'.legs[l].runId == t.legs[l].runId
    ensures Sibling(t', legId) == Some(other)
  {
    var a, s := SiblingOf(t, legId);
    assert IsSibling(t', legId, other);
    forall o | IsSibling(t', legId, o) ensures o == other {
      assert IsLegOf(t, t.legs[legId].runId, o);
    }
  }

  /** A purchase sets the leg's own figures, and the plan of a sale not yet recorded. */
  lemma PurchaseEffect(t: Tables, legId: Id, tx: Transaction, user: Id, now: Time) returns (other: Id)
    requires Valid(t) && OwnsLeg(t, legId, user)
    ensures IsSibling(t, legId, other)
    ensures var (t', answer) := Purchase(t, legId, tx, user, now);
            if t.legs[legId].legType != Acquisition || t.legs[legId].transactionCompletedAt.Some? then
              t' == t && answer.Refused?
            else
              && OnlyLegs(t, t', legId, other)
              && answer == LegOut(t'.legs[legId])
              && t'.legs[legId] == Applied(t.legs[legId], tx, now, false)
              && t.legs[other].legType == Sale
              && t'.legs[other] ==
                   if t.legs[other].transactionCompletedAt.None?
                   then t.legs[other].(quantityScu := tx.quantityScu) else t.legs[other]
  {
    var a, s := SiblingOf(t, legId);
    other := if legId == a then s else a;
    if t.legs[legId].legType == Acquisition && t.legs[legId].transactionCompletedAt.None? {
      SiblingAfterEdit(t, t.(legs := t.legs[legId := Applied(t.legs[legId], tx, now, false)]), legId, other);
    }
  }

  lemma PurchaseKeepsValid(t: Tables, legId: Id, tx: Transaction, user: Id, now: Time)
    requires Valid(t)
    ensures Valid(Purchase(t, legId, tx, user, now).0)
  {
    if OwnsLeg(t, legId, user) {
      var other := PurchaseEffect(t, legId, tx, user, now);
      assert LegBelongs(t, legId) && LegBelongs(t, other);
      if Purchase(t, legId, tx, user, now).1.LegOut? {
        FitEditsKeepValid(t, Purchase(t, legId, tx, user, now).0, legId, other);
      }
    }
  }

  lemma SellKeepsValid(t: Tables, legId: Id, tx: Transaction, user: Id, now: Time)
    requires Valid(t)
    ensures Valid(Sell(t, legId, tx, user, now).0)
  {
    if Sell(t, legId, tx, user, now).1.LegOut? {
      assert LegBelongs(t, legId);
      FitEditsKeepValid(t, Sell(t, legId, tx, user, now).0, legId, legId);
    }
  }

  lemma UpdateKeepsValid(t: Tables, legId: Id, edit: Edit, user: Id)
    requires Valid(t)
    ensures Valid(Update(t, legId, edit, user).0)
  {
    if Update(t, legId, edit, user).1.LegOut? {
      assert LegBelongs(t, legId);
      FitEditsKeepValid(t, Update(t, legId, edit, user).0, legId, legId);
    }
  }

  lemma FinalizeKeepsValid(t: Tables, runId: Id, user: Id, now: Time)
    requires Valid(t)
    ensures Valid(Finalize(t, runId, user, now).0)
  {
    if Finalize(t, runId, user, now).1.RunOut? {
      var t' := Finalize(t, runId, user, now).0;
      forall legId | legId in t'.legs
        ensures LegInvariant(t'.legs[legId])
        ensures InFinalizedRun(t', legId) ==> t'.legs[legId].finalizedAt.Some?
      {
        assert LegBelongs(t, legId);
        if t.legs[legId].runId == runId {
          assert IsLegOf(t, runId, legId);
          NextUnsetFieldCases(t.legs[legId]);
        }
      }
      SameRowsKeepValid(t, t');
    }
  }

  /** A write-off closes both legs, the sale at nothing, and the run with them. */
  lemma WriteOffEffect(t: Tables, runId: Id, user: Id, now: Time) returns (a: Id, s: Id)
    requires Valid(t) && OwnsRun(t, runId, user)
    ensures HasLegs(t, runId, a, s) && a != s
    ensures var (t', answer) := WriteOff(t, runId, user, now);
            if t.runs[runId].finalizedAt.Some? || t.legs[a].transactionCompletedAt.None? || t.legs[s].transactionCompletedAt.Some? then
              t' == t && answer.Refused?
            else
              && answer == RunOut(t'.runs[runId])
              && t' == Tables(t.runs[runId := t.runs[runId].(finalizedAt := Some(now))],
                              t.legs[a := Closed(t.legs[a], now)][s := Closed(Lost(t.legs[s]), now)])
  {
    a, s := LegsOfRun(t, runId);
  }

  lemma WriteOffKeepsValid(t: Tables, runId: Id, user: Id, now: Time)
    requires Valid(t)
    ensures Valid(WriteOff(t, runId, user, now).0)
  {
    if OwnsRun(t, runId, user) {
      var a, s := WriteOffEffect(t, runId, user, now);
      var t' := WriteOff(t, runId, user, now).0;
      if WriteOff(t, runId, user, now).1.RunOut? {
        forall legId | legId in t'.legs
          ensures LegInvariant(t'.legs[legId]) && SameShape(t.legs[legId], t'.legs[legId])
          ensures InFinalizedRun(t', legId) ==> t'.legs[legId].finalizedAt.Some?
        {
          assert LegBelongs(t, legId);
          assert t.legs[legId].runId == runId ==> IsLegOf(t, runId, legId);
        }
        SameRowsKeepValid(t, t');
      }
    }
  }

  lemma StepKeepsValid(t: Tables, r: Request)
    requires Valid(t)
    ensures Valid(Step(t, r).0)
  {
    match r.op
    case CreateRun(_, _, _, _, _, _) => CreateKeepsValid(t, r.op, r.user, r.now);
    case AdvanceLeg(legId) => AdvanceKeepsValid(t, legId, r.user, r.now);
    case RecordPurchase(legId, tx) => PurchaseKeepsValid(t, legId, tx, r.user, r.now);
    case RecordSale(legId, tx) => SellKeepsValid(t, legId, tx, r.user, r.now);
    case UpdateTransaction(legId, edit) => UpdateKeepsValid(t, legId, edit, r.user);
    case FinalizeRun(runId) => FinalizeKeepsValid(t, runId, r.user, r.now);
    case WriteOffRun(runId) => WriteOffKeepsValid(t, runId, r.user, r.now);
    case DeleteRun(runId) => DeleteKeepsValid(t, runId, r.user);
  }

  /** The invariant holds after every sequence of requests, starting from the empty ledger. */
  lemma {:induction false} AlwaysValid(t: Tables, requests: seq<Request>)
    requires Valid(t)
    ensures Valid(After(t, requests))
    decreases |requests|
  {
    if requests != [] {
      StepKeepsValid(t, requests[0]);
      AlwaysValid(Step(t, requests[0]).0, requests[1..]);
    }
  }
}
