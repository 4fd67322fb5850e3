/**
 * The ledger service: one method per request, each proved to leave the tables and give the answer
 * LedgerTables specifies, to keep the tables valid, and to keep the promises made to its callers.
 */
module LedgerService {
  import opened Options
  import opened TradeRunStore
  import opened LedgerTables
  import opened LedgerInvariants
  import LedgerTheorems
  import LedgerIsolation

  /** Finalized runs are kept, unless this request deletes them, and other pilots' rows are untouched. */
  ghost predicate KeepsPromises(t: Tables, t': Tables, r: Request) {
    && (forall runId :: LedgerTheorems.RunFrozen(t, runId) && r.op != DeleteRun(runId) ==> LedgerTheorems.Kept(t, t', runId))
    && (forall other :: other != r.user ==> LedgerIsolation.View(t', other) == LedgerIsolation.View(t, other))
  }

  lemma StepKeepsPromises(t: Tables, r: Request)
    requires Valid(t)
    ensures Valid(Step(t, r).0) && KeepsPromises(t, Step(t, r).0, r)
  {
    StepKeepsValid(t, r);
    forall runId | LedgerTheorems.RunFrozen(t, runId) && r.op != DeleteRun(runId)
      ensures LedgerTheorems.Kept(t, Step(t, r).0, runId)
    {
      LedgerTheorems.FrozenStep(t, r, runId);
    }
    forall other | other != r.user ensures LedgerIsolation.View(Step(t, r).0, other) == LedgerIsolation.View(t, other) {
      LedgerIsolation.OthersUntouched(t, r, other);
    }
  }

  class Ledger {
    var runs: map<Id, TradeRun>
    var legs: map<Id, TradeLeg>

    ghost function State(): Tables
      reads this
    {
      Tables(runs, legs)
    }

    constructor ()
      ensures State() == EMPTY && Valid(State())
    {
      runs, legs := map[], map[];
    }

    method CreateRunFromRoute(
      route: Route, quantityScu: int, ship: Option<string>, user: Id, now: Time, newRun: Id, newAcquisition: Id, newSale: Id
    ) returns (outcome: Outcome)
      requires Valid(State())
      modifies this
      ensures (State(), outcome)
           == Step(old(State()), Request(user, now, CreateRun(route, quantityScu, ship, newRun, newAcquisition, newSale)))
      ensures Valid(State()) && KeepsPromises(old(State()), State(), Request(user, now, CreateRun(route, quantityScu, ship, newRun, newAcquisition, newSale)))
    {
      StepKeepsPromises(State(), Request(user, now, CreateRun(route, quantityScu, ship, newRun, newAcquisition, newSale)));
      var acquisition := NewAcquisition(route, quantityScu, newRun, user, now);
      var sale := NewSale(route, quantityScu, newRun, user);
      var run := NewRun(route, ship, user, now);
      if newRun in runs || newAcquisition in legs || newSale in legs || newAcquisition == newSale {
        return Conflict;
      }
      runs := runs[newRun := run];
      legs := legs[newAcquisition := acquisition];
      legs := legs[newSale := sale];
      outcome := RunOut(run);
    }

    method AdvanceLeg(legId: Id, user: Id, now: Time) returns (outcome: Outcome)
      requires Valid(State())
      modifies this
      ensures (State(), outcome) == Step(old(State()), Request(user, now, LedgerTables.AdvanceLeg(legId)))
      ensures Valid(State()) && KeepsPromises(old(State()), State(), Request(user, now, LedgerTables.AdvanceLeg(legId)))
    {
      StepKeepsPromises(State(), Request(user, now, LedgerTables.AdvanceLeg(legId)));
      if legId !in legs || legs[legId].userId != user {
        return NotFound;
      }
      ghost var expected := AdvanceEffect(State(), legId, user, now);
      var leg := legs[legId];
      var field := NextUnsetField(leg);
      if field.None? {
        return Refused(LegFinalized);
      }
      if field.value == TransactionCompletedAt {
        return Refused(NeedsTransaction);
      }
      leg := leg.Stamp(field.value, now);
      var siblings := OtherLegs(legId);
      legs := legs[legId := leg];
      if field.value == FinalizedAt && siblings != {} {
        var other :| other in siblings;
        var sibling := legs[other];
        if sibling.startedAt.None? {
          sibling := sibling.(startedAt := Some(now));
        }
        legs := legs[other := sibling];
      }
      assert legs == Advance(old(State()), legId, user, now).0.legs;
      outcome := LegOut(leg);
    }

    /** The other legs of the leg's run: in valid tables always exactly one. */
    function OtherLegs(legId: Id): (others: set<Id>)
      requires Valid(State()) && legId in legs
      reads this
      ensures forall other :: other in others <==> IsSibling(State(), legId, other)
      ensures Sibling(State(), legId).Some? && others == {Sibling(State(), legId).value}
    {
      var others := set other | other in legs && other != legId && legs[other].runId == legs[legId].runId;
      OnlyOneOther(State(), legId);
      others
    }

    method RecordPurchase(legId: Id, transaction: Transaction, user: Id, now: Time) returns (outcome: Outcome)
      requires Valid(State())
      modifies this
      ensures (State(), outcome) == Step(old(State()), Request(user, now, LedgerTables.RecordPurchase(legId, transaction)))
      ensures Valid(State()) && KeepsPromises(old(State()), State(), Request(user, now, LedgerTables.RecordPurchase(legId, transaction)))
    {
      StepKeepsPromises(State(), Request(user, now, LedgerTables.RecordPurchase(legId, transaction)));
      if legId !in legs || legs[legId].userId != user {
        return NotFound;
      }
      ghost var expected := PurchaseEffect(State(), legId, transaction, user, now);
      var leg := legs[legId];
      if leg.legType != Acquisition {
        return Refused(WrongLegType);
      }
      if leg.transactionCompletedAt.Some? {
        return Refused(AlreadyRecorded);
      }
      leg := ApplyTransaction(leg, transaction, now, false);
      var siblings := OtherLegs(legId);
      legs := legs[legId := leg];
      if siblings != {} {
        var other :| other in siblings;
        var saleLeg := legs[other];
        if saleLeg.transactionCompletedAt.None? {
          saleLeg := saleLeg.(quantityScu := transaction.quantityScu);
        }
        legs := legs[other := saleLeg];
      }
      assert legs == Purchase(old(State()), legId, transaction, user, now).0.legs;
      outcome := LegOut(leg);
    }

    static method ApplyTransaction(loaded: TradeLeg, tx: Transaction, now: Time, alsoStampTransferred: bool)
      returns (leg: TradeLeg)
      ensures leg == Applied(loaded, tx, now, alsoStampTransferred)
    {
      leg := loaded;
      leg := leg.(quantityScu := tx.quantityScu);
      leg := leg.(pricePerUnit := tx.pricePerUnit);
      leg := leg.(cargoTransferType := tx.transferType);
      leg := leg.(cargoTransferFee := tx.fee);
      leg := leg.(transactionCompletedAt := Some(now));
      if alsoStampTransferred {
        leg := leg.(transferredAt := Some(now));
      }
    }

    method RecordSale(legId: Id, transaction: Transaction, user: Id, now: Time) returns (outcome: Outcome)
      requires Valid(State())
      modifies this
      ensures (State(), outcome) == Step(old(State()), Request(user, now, LedgerTables.RecordSale(legId, transaction)))
      ensures Valid(State()) && KeepsPromises(old(State()), State(), Request(user, now, LedgerTables.RecordSale(legId, transaction)))
    {
      StepKeepsPromises(State(), Request(user, now, LedgerTables.RecordSale(legId, transaction)));
      if legId !in legs || legs[legId].userId != user {
        return NotFound;
      }
      var leg := legs[legId];
      if leg.legType != Sale {
        return Refused(WrongLegType);
      }
      if leg.transactionCompletedAt.Some? {
        return Refused(AlreadyRecorded);
      }
      leg := ApplyTransaction(leg, transaction, now, leg.transferredAt.None?);
      legs := legs[legId := leg];
      outcome := LegOut(leg);
    }

    method UpdateTransaction(legId: Id, edit: Edit, user: Id, now: Time) returns (outcome: Outcome)
      requires Valid(State())
      modifies this
      ensures (State(), outcome) == Step(old(State()), Request(user, now, LedgerTables.UpdateTransaction(legId, edit)))
      ensures Valid(State()) && KeepsPromises(old(State()), State(), Request(user, now, LedgerTables.UpdateTransaction(legId, edit)))
      ensures legId in old(legs) ==>
                legId in legs && (NextUnsetField(legs[legId]).None? <==> NextUnsetField(old(legs)[legId]).None?)
    {
      if legId in legs {
        LedgerTheorems.EditKeepsDone(State(), legId, edit, user);
      }
      StepKeepsPromises(State(), Request(user, now, LedgerTables.UpdateTransaction(legId, edit)));
      if legId !in legs || legs[legId].userId != user {
        return NotFound;
      }
      var leg := legs[legId];
      if leg.runId in runs && runs[leg.runId].finalizedAt.Some? {
        return Refused(RunFinalized);
      }
      if Negative(edit.quantityScu) || Negative(edit.pricePerUnit) || Negative(edit.fee) {
        return Refused(NegativeAmount);
      }
      if edit.quantityScu.Some? {
        leg := leg.(quantityScu := edit.quantityScu.value);
      }
      if edit.pricePerUnit.Some? {
        leg := leg.(pricePerUnit := edit.pricePerUnit.value);
      }
      if edit.fee.Some? {
        leg := leg.(cargoTransferFee := edit.fee.value);
      }
      if edit.transferType.Some? {
        leg := leg.(cargoTransferType := edit.transferType.value);
      }
      legs := legs[legId := leg];
      outcome := LegOut(leg);
    }

    method FinalizeRun(runId: Id, user: Id, now: Time) returns (outcome: Outcome)
      requires Valid(State())
      modifies this
      ensures (State(), outcome) == Step(old(State()), Request(user, now, LedgerTables.FinalizeRun(runId)))
      ensures Valid(State()) && KeepsPromises(old(State()), State(), Request(user, now, LedgerTables.FinalizeRun(runId)))
    {
      StepKeepsPromises(State(), Request(user, now, LedgerTables.FinalizeRun(runId)));
      if runId !in runs || runs[runId].userId != user {
        return NotFound;
      }
      var run := runs[runId];
      var unfinished := set legId | legId in legs && legs[legId].runId == runId && NextUnsetField(legs[legId]).Some?;
      assert unfinished != {} <==> exists legId :: IsLegOf(State(), runId, legId) && NextUnsetField(legs[legId]).Some? by {
        assert forall legId :: legId in unfinished <==> IsLegOf(State(), runId, legId) && NextUnsetField(legs[legId]).Some?;
      }
      if unfinished != {} {
        return Refused(UnfinishedLegs);
      }
      run := run.(finalizedAt := Some(now));
      runs := runs[runId := run];
      outcome := RunOut(run);
    }

    method WriteOffRun(runId: Id, user: Id, now: Time) returns (outcome: Outcome)
      requires Valid(State())
      modifies this
      ensures (State(), outcome) == Step(old(State()), Request(user, now, LedgerTables.WriteOffRun(runId)))
      ensures Valid(State()) && KeepsPromises(old(State()), State(), Request(user, now, LedgerTables.WriteOffRun(runId)))
    {
      StepKeepsPromises(State(), Request(user, now, LedgerTables.WriteOffRun(runId)));
      if runId !in runs || runs[runId].userId != user {
        return NotFound;
      }
      ghost var a, s := WriteOffEffect(State(), runId, user, now);
      var run := runs[runId];
      if run.finalizedAt.Some? {
        return Refused(RunFinalized);
      }
      assert IsTypedLegOf(State(), runId, Acquisition, a) && IsTypedLegOf(State(), runId, Sale, s);
      var acquisitionId :| acquisitionId in legs && legs[acquisitionId].runId == runId && legs[acquisitionId].legType == Acquisition;
      var saleId :| saleId in legs && legs[saleId].runId == runId && legs[saleId].legType == Sale;
      assert IsLegOf(State(), runId, acquisitionId) && IsLegOf(State(), runId, saleId);
      if legs[acquisitionId].transactionCompletedAt.None? {
        return Refused(NoPurchase);
      }
      if legs[saleId].transactionCompletedAt.Some? {
        return Refused(SaleRecorded);
      }
      var sale := legs[saleId];
      sale := sale.(quantityScu := 0);
      sale := sale.(pricePerUnit := 0);
      sale := sale.(cargoTransferFee := 0);
      var acquisition := Close(legs[acquisitionId], now);
      sale := Close(sale, now);
      legs := legs[acquisitionId := acquisition];
      legs := legs[saleId := sale];
      run := run.(finalizedAt := Some(now));
      runs := runs[runId := run];
      outcome := RunOut(run);
    }

    static method Close(loaded: TradeLeg, now: Time) returns (leg: TradeLeg)
      ensures leg == Closed(loaded, now)
    {
      leg := loaded;
      var milestones := [ReachedAt, TransactionCompletedAt, TransferredAt, FinalizedAt];
      for k := 0 to |milestones|
        invariant leg == loaded.(reachedAt := if k > 0 then OrNow(loaded.reachedAt, now) else loaded.reachedAt,
                                 transactionCompletedAt :=
                                   if k > 1 then OrNow(loaded.transactionCompletedAt, now) else loaded.transactionCompletedAt,
                                 transferredAt := if k > 2 then OrNow(loaded.transferredAt, now) else loaded.transferredAt,
                                 finalizedAt := if k > 3 then OrNow(loaded.finalizedAt, now) else loaded.finalizedAt)
      {
        if leg.At(milestones[k]).None? {
          leg := leg.Stamp(milestones[k], now);
        }
      }
      if leg.startedAt.None? {
        leg := leg.(startedAt := Some(now));
      }
    }

    method DeleteRun(runId: Id, user: Id, now: Time) returns (outcome: Outcome)
      requires Valid(State())
      modifies this
      ensures (State(), outcome) == Step(old(State()), Request(user, now, LedgerTables.DeleteRun(runId)))
      ensures Valid(State()) && KeepsPromises(old(State()), State(), Request(user, now, LedgerTables.DeleteRun(runId)))
    {
      StepKeepsPromises(State(), Request(user, now, LedgerTables.DeleteRun(runId)));
      if runId !in runs || runs[runId].userId != user {
        return NotFound;
      }
      runs := runs - {runId};
      legs := map legId | legId in legs && legs[legId].runId != runId :: legs[legId];
      outcome := Removed;
    }

    /** Whichever request comes in. */
    method Handle(r: Request) returns (outcome: Outcome)
      requires Valid(State())
      modifies this
      ensures (State(), outcome) == Step(old(State()), r)
      ensures Valid(State()) && KeepsPromises(old(State()), State(), r)
    {
      match r.op {
        case CreateRun(route, quantityScu, ship, newRun, newAcquisition, newSale) =>
          outcome := CreateRunFromRoute(route, quantityScu, ship, r.user, r.now, newRun, newAcquisition, newSale);
        case AdvanceLeg(legId) => outcome := AdvanceLeg(legId, r.user, r.now);
        case RecordPurchase(legId, transaction) => outcome := RecordPurchase(legId, transaction, r.user, r.now);
        case RecordSale(legId, transaction) => outcome := RecordSale(legId, transaction, r.user, r.now);
        case UpdateTransaction(legId, edit) => outcome := UpdateTransaction(legId, edit, r.user, r.now);
        case FinalizeRun(runId) => outcome := FinalizeRun(runId, r.user, r.now);
        case WriteOffRun(runId) => outcome := WriteOffRun(runId, r.user, r.now);
        case DeleteRun(runId) => outcome := DeleteRun(runId, r.user, r.now);
      }
    }

    /** One request after the other. */
    method HandleAll(requests: seq<Request>)
      requires Valid(State())
      modifies this
      ensures Valid(State()) && State() == After(old(State()), requests)
    {
      for k := 0 to |requests|
        invariant Valid(State()) && After(State(), requests[k..]) == After(old(State()), requests)
      {
        assert requests[k..][1..] == requests[k + 1..];
        var outcome := Handle(requests[k]);
      }
    }
  }

  lemma OnlyOneOther(t: Tables, legId: Id)
    requires Valid(t) && legId in t.legs
    ensures Sibling(t, legId).Some?
    ensures forall other :: IsSibling(t, legId, other) <==> other == Sibling(t, legId).value
  {
    var a, s := SiblingOf(t, legId);
    var only := if legId == a then s else a;
    assert IsSibling(t, legId, only);
    forall other | IsSibling(t, legId, other) ensures other == only {
      assert IsLegOf(t, t.legs[legId].runId, other);
    }
  }
}
