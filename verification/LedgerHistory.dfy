/**
 * The ledger field by field: what sets each figure and each time of a leg, what adds and removes rows,
 * and what each answer means. From that, over whole runs: times are written once, and what was
 * recorded or written off decides the money for ever after.
 */
module LedgerHistory {
  import opened Options
  import opened Sorting
  import opened TradeRunStore
  import opened LedgerTables
  import opened LedgerInvariants
  import opened LedgerTheorems
  import ContainerSizes
  import CargoPacking

  ghost predicate Accepted(t: Tables, r: Request) {
    Step(t, r).1.LegOut? || Step(t, r).1.RunOut? || Step(t, r).1.Removed?
  }

  // ----- What sets a leg's figures and times -----

  /** The figures an accepted request gives a leg. */
  datatype Figures = Figures(quantity: Option<int>, price: Option<int>, fee: Option<int>, transferType: Option<CargoTransferType>)

  const NO_FIGURES := Figures(None, None, None, None)

  ghost function Given(t: Tables, r: Request, legId: Id): Figures
    requires legId in t.legs
  {
    var leg := t.legs[legId];
    match r.op
    case RecordPurchase(id, tx) =>
      if id == legId then
        Figures(Some(tx.quantityScu), Some(tx.pricePerUnit), Some(tx.fee), Some(tx.transferType))
      else if IsLegOf(t, leg.runId, id) && leg.transactionCompletedAt.None? then
        NO_FIGURES.(quantity := Some(tx.quantityScu))
      else
        NO_FIGURES
    case RecordSale(id, tx) =>
      if id == legId then Figures(Some(tx.quantityScu), Some(tx.pricePerUnit), Some(tx.fee), Some(tx.transferType))
      else NO_FIGURES
    case UpdateTransaction(id, edit) =>
      if id == legId then Figures(edit.quantityScu, edit.pricePerUnit, edit.fee, edit.transferType) else NO_FIGURES
    case WriteOffRun(runId) =>
      if leg.runId == runId && leg.legType == Sale then Figures(Some(0), Some(0), Some(0), None) else NO_FIGURES
    case _ => NO_FIGURES
  }

  /** An accepted request sets this milestone, which was unset before, to its own time. */
  ghost predicate Stamps(t: Tables, r: Request, legId: Id, m: Milestone)
    requires legId in t.legs
  {
    && t.legs[legId].At(m).None?
    && match r.op
       case AdvanceLeg(id) => id == legId && NextUnsetField(t.legs[legId]) == Some(m)
       case RecordPurchase(id, _) => id == legId && m == TransactionCompletedAt
       case RecordSale(id, _) => id == legId && (m == TransactionCompletedAt || m == TransferredAt)
       case WriteOffRun(runId) => t.legs[legId].runId == runId
       case _ => false
  }

  /** A leg not yet started is started when the run's other leg is finalized, or the run written off. */
  ghost predicate Starts(t: Tables, r: Request, legId: Id)
    requires legId in t.legs
  {
    && t.legs[legId].startedAt.None?
    && match r.op
       case AdvanceLeg(id) =>
         id != legId && IsLegOf(t, t.legs[legId].runId, id) && NextUnsetField(t.legs[id]) == Some(FinalizedAt)
       case WriteOffRun(runId) => t.legs[legId].runId == runId
       case _ => false
  }

  predicate SamePlace(leg: TradeLeg, leg': TradeLeg) {
    && leg'.userId == leg.userId && leg'.runId == leg.runId && leg'.legType == leg.legType
    && leg'.terminalId == leg.terminalId && leg'.terminalName == leg.terminalName && leg'.commodityName == leg.commodityName
  }

  predicate Says<T(==)>(given: Option<T>, was: T, now: T) {
    now == if given.Some? then given.value else was
  }

  ghost predicate LegFollows(t: Tables, r: Request, legId: Id, leg: TradeLeg)
    requires legId in t.legs
  {
    var was, given := t.legs[legId], Given(t, r, legId);
    if !Accepted(t, r) then leg == was
    else
      && SamePlace(was, leg)
      && Says(given.quantity, was.quantityScu, leg.quantityScu) && Says(given.price, was.pricePerUnit, leg.pricePerUnit)
      && Says(given.fee, was.cargoTransferFee, leg.cargoTransferFee)
      && Says(given.transferType, was.cargoTransferType, leg.cargoTransferType)
      && (forall m: Milestone :: leg.At(m) == if Stamps(t, r, legId, m) then Some(r.now) else was.At(m))
      && leg.startedAt == if Starts(t, r, legId) then Some(r.now) else was.startedAt
  }

  lemma AdvanceFollows(t: Tables, r: Request, legId: Id)
    requires Valid(t) && legId in t.legs && r.op.AdvanceLeg?
    ensures legId in Step(t, r).0.legs && LegFollows(t, r, legId, Step(t, r).0.legs[legId])
  {
    var id := r.op.legId;
    if OwnsLeg(t, id, r.user) {
      var other := AdvanceEffect(t, id, r.user, r.now);
      OnlyTwoLegs(t, id, other, legId);
      if Accepted(t, r) && legId == id {
        var next := NextUnsetField(t.legs[id]).value;
        StampSetsOne(t.legs[id], next, r.now);
        forall m: Milestone ensures Stamps(t, r, legId, m) <==> m == next {
          assert Stamps(t, r, legId, m) <==> t.legs[id].At(m).None? && NextUnsetField(t.legs[id]) == Some(m);
        }
      }
    }
  }

  /** The next milestone was unset, and stamping it changes that one alone. */
  lemma StampSetsOne(leg: TradeLeg, next: Milestone, now: Time)
    requires NextUnsetField(leg) == Some(next)
    ensures leg.At(next).None? && leg.Stamp(next, now).startedAt == leg.startedAt
    ensures forall m: Milestone :: leg.Stamp(next, now).At(m) == if m == next then Some(now) else leg.At(m)
    ensures SamePlace(leg, leg.Stamp(next, now))
    ensures SameFigures(leg, leg.Stamp(next, now))
  {
    NextUnsetFieldCases(leg);
  }

  predicate SameFigures(leg: TradeLeg, leg': TradeLeg) {
    && leg'.quantityScu == leg.quantityScu && leg'.pricePerUnit == leg.pricePerUnit
    && leg'.cargoTransferFee == leg.cargoTransferFee && leg'.cargoTransferType == leg.cargoTransferType
  }

  /** A leg of the same run is one of these two. */
  lemma OnlyTwoLegs(t: Tables, legId: Id, other: Id, third: Id)
    requires Valid(t) && IsSibling(t, legId, other) && third in t.legs
    ensures IsLegOf(t, t.legs[third].runId, legId) <==> third == legId || third == other
    ensures t.legs[other].legType != t.legs[legId].legType
  {
    var a, s := SiblingOf(t, legId);
    assert IsLegOf(t, t.legs[legId].runId, other);
    if t.legs[third].runId == t.legs[legId].runId {
      assert IsLegOf(t, t.legs[legId].runId, third);
    }
  }

  lemma PurchaseFollows(t: Tables, r: Request, legId: Id)
    requires Valid(t) && legId in t.legs && r.op.RecordPurchase?
    ensures legId in Step(t, r).0.legs && LegFollows(t, r, legId, Step(t, r).0.legs[legId])
  {
    if OwnsLeg(t, r.op.legId, r.user) {
      var other := PurchaseEffect(t, r.op.legId, r.op.transaction, r.user, r.now);
      OnlyTwoLegs(t, r.op.legId, other, legId);
    }
  }

  lemma WriteOffFollows(t: Tables, r: Request, legId: Id)
    requires Valid(t) && legId in t.legs && r.op.WriteOffRun?
    ensures legId in Step(t, r).0.legs && LegFollows(t, r, legId, Step(t, r).0.legs[legId])
  {
    if OwnsRun(t, r.op.runId, r.user) {
      var a, s := WriteOffEffect(t, r.op.runId, r.user, r.now);
      assert IsLegOf(t, r.op.runId, legId) ==> legId == a || legId == s;
    }
  }

  /**
   * What any request by anyone leaves of a leg that it does not delete: each figure is what the request
   * gives or what it was, each time is the request's if that stamps it or what it was, and everything
   * else is as it was.
   */
  lemma LegStep(t: Tables, r: Request, legId: Id)
    requires Valid(t) && legId in t.legs && legId in Step(t, r).0.legs
    ensures LegFollows(t, r, legId, Step(t, r).0.legs[legId])
  {
    match r.op
    case AdvanceLeg(_) => AdvanceFollows(t, r, legId);
    case RecordPurchase(_, _) => PurchaseFollows(t, r, legId);
    case WriteOffRun(_) => WriteOffFollows(t, r, legId);
    case _ =>
  }

  // ----- Which rows there are -----

  ghost predicate RunFollows(t: Tables, r: Request, runId: Id, run: TradeRun)
    requires runId in t.runs
  {
    var finalizes := Accepted(t, r) && (r.op == FinalizeRun(runId) || r.op == WriteOffRun(runId));
    run == t.runs[runId].(finalizedAt := if finalizes then Some(r.now) else t.runs[runId].finalizedAt)
  }

  /** Accepted creations add a run and two legs, accepted deletions remove a run and its legs, and a run's row only gets its end. */
  lemma RowsStep(t: Tables, r: Request)
    requires Valid(t)
    ensures var t' := Step(t, r).0;
            var creates, deletes := Accepted(t, r) && r.op.CreateRun?, Accepted(t, r) && r.op.DeleteRun?;
            && (forall runId :: runId in t'.runs <==>
                 (runId in t.runs && !(deletes && runId == r.op.runId)) || (creates && runId == r.op.newRun))
            && (forall legId :: legId in t'.legs <==>
                 || (legId in t.legs && !(deletes && t.legs[legId].runId == r.op.runId))
                 || (creates && (legId == r.op.newAcquisition || legId == r.op.newSale)))
            && (creates ==> r.op.newRun !in t.runs && r.op.newAcquisition !in t.legs && r.op.newSale !in t.legs)
            && forall runId :: runId in t.runs && runId in t'.runs ==> RunFollows(t, r, runId, t'.runs[runId])
  {
    match r.op
    case AdvanceLeg(legId) =>
      if OwnsLeg(t, legId, r.user) {
        var other := AdvanceEffect(t, legId, r.user, r.now);
      }
    case RecordPurchase(legId, tx) =>
      if OwnsLeg(t, legId, r.user) {
        var other := PurchaseEffect(t, legId, tx, r.user, r.now);
      }
    case WriteOffRun(runId) =>
      if OwnsRun(t, runId, r.user) {
        var a, s := WriteOffEffect(t, runId, r.user, r.now);
      }
    case _ =>
  }

  // ----- What an answer means -----

  ghost predicate TransactionRefused(leg: TradeLeg, legType: LegType, reason: Reason) {
    if leg.legType != legType then reason == WrongLegType
    else leg.transactionCompletedAt.Some? && reason == AlreadyRecorded
  }

  ghost predicate Unfinished(t: Tables, runId: Id) {
    exists legId :: IsLegOf(t, runId, legId) && NextUnsetField(t.legs[legId]).Some?
  }

  ghost predicate Recorded(t: Tables, runId: Id, legType: LegType) {
    exists legId :: IsTypedLegOf(t, runId, legType, legId) && t.legs[legId].transactionCompletedAt.Some?
  }

  predicate BelowZero(given: Option<int>) {
    match given
    case None => false
    case Some(n) => n < 0
  }

  /** The reason, if any, to refuse a request about rows of one's own. */
  ghost predicate IsReason(t: Tables, r: Request, reason: Reason) {
    match r.op
    case AdvanceLeg(id) => id in t.legs && (
      match NextUnsetField(t.legs[id])
      case None => reason == LegFinalized
      case Some(m) => m == TransactionCompletedAt && reason == NeedsTransaction)
    case RecordPurchase(id, _) => id in t.legs && TransactionRefused(t.legs[id], Acquisition, reason)
    case RecordSale(id, _) => id in t.legs && TransactionRefused(t.legs[id], Sale, reason)
    case UpdateTransaction(id, edit) =>
      if InFinalizedRun(t, id) then reason == RunFinalized
      else reason == NegativeAmount && (BelowZero(edit.quantityScu) || BelowZero(edit.pricePerUnit) || BelowZero(edit.fee))
    case FinalizeRun(runId) => Unfinished(t, runId) && reason == UnfinishedLegs
    case WriteOffRun(runId) =>
      if RunFrozen(t, runId) then reason == RunFinalized
      else if !Recorded(t, runId, Acquisition) then reason == NoPurchase
      else Recorded(t, runId, Sale) && reason == SaleRecorded
    case _ => false
  }

  ghost predicate IsOwn(t: Tables, r: Request) {
    match r.op
    case CreateRun(_, _, _, _, _, _) => true
    case AdvanceLeg(id) => OwnsLeg(t, id, r.user)
    case RecordPurchase(id, _) => OwnsLeg(t, id, r.user)
    case RecordSale(id, _) => OwnsLeg(t, id, r.user)
    case UpdateTransaction(id, _) => OwnsLeg(t, id, r.user)
    case FinalizeRun(runId) => OwnsRun(t, runId, r.user)
    case WriteOffRun(runId) => OwnsRun(t, runId, r.user)
    case DeleteRun(runId) => OwnsRun(t, runId, r.user)
  }

  lemma WriteOffReasons(t: Tables, r: Request, reason: Reason)
    requires Valid(t) && r.op.WriteOffRun? && OwnsRun(t, r.op.runId, r.user)
    ensures Step(t, r).1 == Refused(reason) <==> IsReason(t, r, reason)
    ensures Step(t, r).1.Refused? || Step(t, r).1.RunOut?
  {
    var runId := r.op.runId;
    var a, s := WriteOffEffect(t, runId, r.user, r.now);
    var a', s' := LegsOfRun(t, runId);
    assert Recorded(t, runId, Acquisition) <==> t.legs[a].transactionCompletedAt.Some? by {
      assert IsTypedLegOf(t, runId, Acquisition, a);
      assert forall legId :: IsTypedLegOf(t, runId, Acquisition, legId) ==> legId == a;
    }
    assert Recorded(t, runId, Sale) <==> t.legs[s].transactionCompletedAt.Some? by {
      assert IsTypedLegOf(t, runId, Sale, s);
      assert forall legId :: IsTypedLegOf(t, runId, Sale, legId) ==> legId == s;
    }
    assert IsTypedLegOf(t, runId, Acquisition, a') && IsTypedLegOf(t, runId, Sale, s');
  }

  ghost predicate IdTaken(t: Tables, op: Op)
    requires op.CreateRun?
  {
    op.newRun in t.runs || op.newAcquisition in t.legs || op.newSale in t.legs || op.newAcquisition == op.newSale
  }

  ghost predicate AnswerFits(t: Tables, r: Request, reason: Reason) {
    var (t', answer) := Step(t, r);
    && (answer == NotFound <==> !IsOwn(t, r))
    && (answer == Conflict <==> r.op.CreateRun? && IdTaken(t, r.op))
    && (answer == Refused(reason) <==> IsOwn(t, r) && IsReason(t, r, reason))
    && (!Accepted(t, r) ==> t' == t)
    && (answer.LegOut? ==> IsLegRequest(r.op) && r.op.legId in t'.legs && t'.legs[r.op.legId] == answer.leg)
    && (answer.RunOut? ==> IsRunRequest(r.op) && RunOf(r.op) in t'.runs && t'.runs[RunOf(r.op)] == answer.run)
  }

  predicate IsLegRequest(op: Op) {
    op.AdvanceLeg? || op.RecordPurchase? || op.RecordSale? || op.UpdateTransaction?
  }

  predicate IsRunRequest(op: Op) {
    op.CreateRun? || op.FinalizeRun? || op.WriteOffRun?
  }

  function RunOf(op: Op): Id
    requires IsRunRequest(op)
  {
    if op.CreateRun? then op.newRun else op.runId
  }

  lemma AdvanceAnswers(t: Tables, r: Request, reason: Reason)
    requires Valid(t) && r.op.AdvanceLeg?
    ensures AnswerFits(t, r, reason)
  {
    if OwnsLeg(t, r.op.legId, r.user) {
      var other := AdvanceEffect(t, r.op.legId, r.user, r.now);
    }
  }

  lemma PurchaseAnswers(t: Tables, r: Request, reason: Reason)
    requires Valid(t) && r.op.RecordPurchase?
    ensures AnswerFits(t, r, reason)
  {
    if OwnsLeg(t, r.op.legId, r.user) {
      var other := PurchaseEffect(t, r.op.legId, r.op.transaction, r.user, r.now);
    }
  }

  lemma WriteOffAnswers(t: Tables, r: Request, reason: Reason)
    requires Valid(t) && r.op.WriteOffRun?
    ensures AnswerFits(t, r, reason)
  {
    if OwnsRun(t, r.op.runId, r.user) {
      var a, s := WriteOffEffect(t, r.op.runId, r.user, r.now);
      WriteOffReasons(t, r, reason);
    }
  }

  /**
   * Each answer has just one meaning: not found is a row missing or another pilot's, a conflict is an
   * id in use, each refusal is given exactly when its reason holds, and otherwise the request is
   * accepted. Nothing changes unless it is, and then the answer is the row as it is now.
   */
  lemma AnswerMeans(t: Tables, r: Request, reason: Reason)
    requires Valid(t)
    ensures AnswerFits(t, r, reason)
  {
    match r.op
    case AdvanceLeg(_) => AdvanceAnswers(t, r, reason);
    case RecordPurchase(_, _) => PurchaseAnswers(t, r, reason);
    case WriteOffRun(_) => WriteOffAnswers(t, r, reason);
    case _ =>
  }

  // ----- A request is about one run -----

  ghost predicate IsAbout(t: Tables, op: Op, runId: Id) {
    match op
    case CreateRun(_, _, _, newRun, _, _) => newRun == runId
    case AdvanceLeg(id) => IsLegOf(t, runId, id)
    case RecordPurchase(id, _) => IsLegOf(t, runId, id)
    case RecordSale(id, _) => IsLegOf(t, runId, id)
    case UpdateTransaction(id, _) => IsLegOf(t, runId, id)
    case FinalizeRun(id) => id == runId
    case WriteOffRun(id) => id == runId
    case DeleteRun(id) => id == runId
  }

  lemma NothingGiven(t: Tables, r: Request, legId: Id)
    requires legId in t.legs && !IsAbout(t, r.op, t.legs[legId].runId)
    ensures Given(t, r, legId) == NO_FIGURES && !Starts(t, r, legId)
    ensures forall m: Milestone :: !Stamps(t, r, legId, m)
  {
  }

  /** Every other run keeps its row and its legs exactly, the same pilot's other runs included. */
  lemma OtherRunsUntouched(t: Tables, r: Request, runId: Id)
    requires Valid(t) && !IsAbout(t, r.op, runId)
    ensures var t' := Step(t, r).0;
            && (runId in t'.runs <==> runId in t.runs) && (runId in t.runs ==> t'.runs[runId] == t.runs[runId])
            && (runId in t.runs ==> forall legId :: IsLegOf(t, runId, legId) || IsLegOf(t', runId, legId) ==> SameLeg(t, t', legId))
  {
    RowsStep(t, r);
    var t' := Step(t, r).0;
    if runId in t.runs {
      forall legId | IsLegOf(t, runId, legId) || IsLegOf(t', runId, legId) ensures SameLeg(t, t', legId) {
        if legId in t.legs && legId in t'.legs {
          LegStep(t, r, legId);
          NothingGiven(t, r, legId);
          SameInEveryField(t.legs[legId], t'.legs[legId]);
        }
      }
    }
  }

  lemma SameInEveryField(leg: TradeLeg, leg': TradeLeg)
    requires SamePlace(leg, leg') && SameFigures(leg, leg') && leg'.startedAt == leg.startedAt
    requires forall m: Milestone :: leg'.At(m) == leg.At(m)
    ensures leg' == leg
  {
    assert leg'.At(ReachedAt) == leg.At(ReachedAt) && leg'.At(TransactionCompletedAt) == leg.At(TransactionCompletedAt);
    assert leg'.At(TransferredAt) == leg.At(TransferredAt) && leg'.At(FinalizedAt) == leg.At(FinalizedAt);
  }

  // ----- Times are written once -----

  /** Every time set on the leg is still there, and its place is the same. */
  ghost predicate TimesKept(leg: TradeLeg, leg': TradeLeg) {
    && SamePlace(leg, leg') && (leg.startedAt.Some? ==> leg'.startedAt == leg.startedAt)
    && forall m: Milestone :: leg.At(m).Some? ==> leg'.At(m) == leg.At(m)
  }

  /** Over any requests that do not delete its run, no time of a leg that was set ever changes, and the leg keeps its place. */
  lemma {:induction false} WrittenOnce(t: Tables, requests: seq<Request>, legId: Id)
    requires Valid(t) && legId in t.legs
    requires forall k :: 0 <= k < |requests| ==> requests[k].op != DeleteRun(t.legs[legId].runId)
    ensures legId in After(t, requests).legs && TimesKept(t.legs[legId], After(t, requests).legs[legId])
    decreases |requests|
  {
    if requests != [] {
      var r, t' := requests[0], Step(t, requests[0]).0;
      StepKeepsValid(t, r);
      RowsStep(t, r);
      LegStep(t, r, legId);
      WrittenOnce(t', requests[1..], legId);
    }
  }

  // ----- A write-off -----

  lemma WriteOffGives(t: Tables, r: Request, runId: Id) returns (a: Id, s: Id)
    requires Valid(t) && r.op == WriteOffRun(runId) && Step(t, r).1.RunOut?
    ensures var t' := Step(t, r).0;
            && HasLegs(t, runId, a, s) && HasLegs(t', runId, a, s) && a != s && RunFrozen(t', runId)
            && ClosedAt(t.legs[a], t'.legs[a], r.now) && ClosedAt(t.legs[s], t'.legs[s], r.now)
            && SameFigures(t.legs[a], t'.legs[a])
            && t'.legs[s].quantityScu == 0 && t'.legs[s].pricePerUnit == 0 && t'.legs[s].cargoTransferFee == 0
  {
    a, s := WrittenOffLegs(t, r, runId);
    LegStep(t, r, a);
    LegStep(t, r, s);
  }

  /** Every milestone is set: those that were are as they were, the others have this time. */
  ghost predicate ClosedAt(leg: TradeLeg, leg': TradeLeg, now: Time) {
    && SamePlace(leg, leg')
    && forall m: Milestone :: leg'.At(m) == if leg.At(m).Some? then leg.At(m) else Some(now)
  }

  /**
   * What a write-off comes to, after any later requests that do not delete the run: the sale is for
   * nothing and without a fee, the purchase and every time set before are as they were, and the run has
   * lost just what was invested and the purchase's own fee.
   */
  lemma {:induction false} WrittenOffForGood(t: Tables, r: Request, requests: seq<Request>, runId: Id, ids: seq<Id>, later: seq<Id>)
    returns (a: Id, s: Id)
    requires Valid(t) && r.op == WriteOffRun(runId) && Step(t, r).1.RunOut?
    requires forall k :: 0 <= k < |requests| ==> requests[k].op != DeleteRun(runId)
    requires Lists(t, runId, ids) && Lists(After(Step(t, r).0, requests), runId, later)
    ensures forall k :: 0 <= k < |ids| ==> ids[k] in t.legs
    ensures forall k :: 0 <= k < |later| ==> later[k] in After(Step(t, r).0, requests).legs
    ensures var u := After(Step(t, r).0, requests);
            && HasLegs(t, runId, a, s) && HasLegs(u, runId, a, s)
            && u.legs[s].quantityScu == 0 && u.legs[s].pricePerUnit == 0 && u.legs[s].cargoTransferFee == 0
            && SameFigures(t.legs[a], u.legs[a])
            && ClosedAt(t.legs[a], u.legs[a], r.now) && ClosedAt(t.legs[s], u.legs[s], r.now)
            && RunFees(Rows(u, later)) == t.legs[a].cargoTransferFee
            && RunProfit(Rows(u, later)) == -(RunInvestment(Rows(t, ids)) + t.legs[a].cargoTransferFee)
  {
    var t', u := Step(t, r).0, After(Step(t, r).0, requests);
    a, s := WriteOffGives(t, r, runId);
    StepKeepsValid(t, r);
    FrozenRun(t', requests, runId);
    KeptLegs(t', u, runId, a, s);
    FiguresOfTwo(t, runId, ids, a, s);
    FiguresOfTwo(u, runId, later, a, s);
  }

  // ----- A new run -----

  /** A leg at its beginning: planned, free of charge, with no milestone reached. */
  ghost predicate Planned(leg: TradeLeg, terminalId: int, terminalName: string, quantity: int, price: int, autoLoad: bool) {
    && leg.terminalId == terminalId && leg.terminalName == terminalName
    && leg.quantityScu == quantity && leg.pricePerUnit == price && leg.cargoTransferFee == 0
    && (leg.cargoTransferType == Autoload <==> autoLoad)
    && forall m: Milestone :: leg.At(m).None?
  }

  /** The two legs of a new run: the purchase at the route's origin, under way, and the sale at its destination. */
  ghost predicate ArePlanned(acquisition: TradeLeg, sale: TradeLeg, op: Op, now: Time)
    requires op.CreateRun?
  {
    var route := op.route;
    && Planned(acquisition, route.originTerminalId, route.originTerminalName, op.quantityScu, Round(route.priceOrigin),
               route.isAutoLoadOrigin)
    && Planned(sale, route.destinationTerminalId, route.destinationTerminalName, op.quantityScu, Round(route.priceDestination),
               route.isAutoLoadDestination)
    && acquisition.commodityName == route.commodityName == sale.commodityName
    && acquisition.startedAt == Some(now) && sale.startedAt == None
  }

  ghost predicate PlannedFigures(rows: seq<TradeLeg>, quantity: int, buy: int, sell: int) {
    RunFees(rows) == 0 && RunInvestment(rows) == quantity * buy && RunProfit(rows) == quantity * sell - quantity * buy
  }

  /**
   * A run just created buys at the route's origin and sells at its destination, at prices rounded to the
   * nearest integer. Its purchase is under way and its sale is not, and its listed figures are the
   * plan's.
   */
  lemma CreatedPlan(t: Tables, r: Request, ids: seq<Id>)
    requires Valid(t) && r.op.CreateRun? && Step(t, r).1.RunOut? && Lists(Step(t, r).0, r.op.newRun, ids)
    ensures forall k :: 0 <= k < |ids| ==> ids[k] in Step(t, r).0.legs
    ensures var (t', a, s) := (Step(t, r).0, r.op.newAcquisition, r.op.newSale);
            && HasLegs(t', r.op.newRun, a, s) && t'.legs[a].userId == r.user == t'.legs[s].userId
            && ArePlanned(t'.legs[a], t'.legs[s], r.op, r.now)
    ensures PlannedFigures(Rows(Step(t, r).0, ids), r.op.quantityScu, Round(r.op.route.priceOrigin), Round(r.op.route.priceDestination))
  {
    NewLegs(t, r);
    FiguresOfTwo(Step(t, r).0, r.op.newRun, ids, r.op.newAcquisition, r.op.newSale);
  }

  /** Its row is its owner's, and the container sizes it stores are those both terminals have. */
  lemma CreatedRow(t: Tables, r: Request)
    requires r.op.CreateRun? && Step(t, r).1.RunOut?
    ensures r.op.newRun in Step(t, r).0.runs
    ensures var (route, run) := (r.op.route, Step(t, r).0.runs[r.op.newRun]);
            && run.userId == r.user && run.ship == r.op.ship && run.createdAt == r.now && run.finalizedAt == None
            && exists sizes :: ContainerSizes.ParseContainerSizes(run.usableContainerSizes) == Some(sizes)
                               && AreCommon(sizes, route.containerSizesOrigin, route.containerSizesDestination)
  {
    StoredSizes(r.op.route, r.op.ship, r.user, r.now);
  }

  lemma NewLegsPlanned(op: Op, user: Id, now: Time)
    requires op.CreateRun?
    ensures ArePlanned(NewAcquisition(op.route, op.quantityScu, op.newRun, user, now),
                       NewSale(op.route, op.quantityScu, op.newRun, user), op, now)
  {
  }

  lemma NewLegs(t: Tables, r: Request)
    requires Valid(t) && r.op.CreateRun? && Step(t, r).1.RunOut?
    ensures HasLegs(Step(t, r).0, r.op.newRun, r.op.newAcquisition, r.op.newSale) && r.op.newAcquisition != r.op.newSale
    ensures ArePlanned(Step(t, r).0.legs[r.op.newAcquisition], Step(t, r).0.legs[r.op.newSale], r.op, r.now)
    ensures Step(t, r).0.legs[r.op.newAcquisition].userId == r.user == Step(t, r).0.legs[r.op.newSale].userId
  {
    var t', op := Step(t, r).0, r.op;
    NewLegsPlanned(op, r.user, r.now);
    assert t'.legs[op.newAcquisition] == NewAcquisition(op.route, op.quantityScu, op.newRun, r.user, r.now);
    assert t'.legs[op.newSale] == NewSale(op.route, op.quantityScu, op.newRun, r.user);
    forall legId | IsLegOf(t', op.newRun, legId) ensures legId == op.newAcquisition || legId == op.newSale {
      if legId in t.legs {
        assert LegBelongs(t, legId);
      }
    }
  }

  /** Smallest first, each once, exactly the sizes both lists have. */
  ghost predicate AreCommon(sizes: seq<int>, origin: seq<int>, destination: seq<int>) {
    IsStrictlySorted(sizes) && forall size :: size in sizes <==> size in origin && size in destination
  }

  lemma StoredSizes(route: Route, ship: Option<string>, user: Id, now: Time)
    ensures exists sizes :: ContainerSizes.ParseContainerSizes(NewRun(route, ship, user, now).usableContainerSizes) == Some(sizes)
                            && AreCommon(sizes, route.containerSizesOrigin, route.containerSizesDestination)
  {
    var usable := CargoPacking.UsableContainerSizes(route.containerSizesOrigin, route.containerSizesDestination);
    ContainerSizes.FormatParseRoundTrip(usable);
    SortedAgain(usable);
    assert AreCommon(Sorted(usable), route.containerSizesOrigin, route.containerSizesDestination);
  }

  /** Sorting what is sorted changes nothing. */
  lemma SortedAgain(sizes: seq<int>)
    requires IsStrictlySorted(sizes)
    ensures Sorted(sizes) == sizes
  {
    DistinctSortedIsStrict(sizes);
    SortedKeepsElements(sizes);
    StrictlySortedUnique(Sorted(sizes), sizes);
  }

  // ----- A finalized leg has set the other one off -----

  ghost predicate SetsOff(t: Tables, legId: Id, other: Id)
    requires legId in t.legs && other in t.legs
  {
    t.legs[other].legType == Acquisition || t.legs[legId].finalizedAt.Some? ==> t.legs[other].startedAt.Some?
  }

  /** Purchases are under way from the start, and sales once the purchase is finalized. */
  ghost predicate SetOff(t: Tables) {
    forall legId, other :: IsSibling(t, legId, other) ==> SetsOff(t, legId, other)
  }

  lemma OldLegsSetOff(t: Tables, r: Request, legId: Id, other: Id)
    requires Valid(t) && legId in Step(t, r).0.legs && IsSibling(t, legId, other) && other in Step(t, r).0.legs
    requires SetsOff(t, legId, other)
    ensures SetsOff(Step(t, r).0, legId, other)
  {
    var t' := Step(t, r).0;
    LegStep(t, r, legId);
    LegStep(t, r, other);
    assert t'.legs[legId].At(FinalizedAt) == t'.legs[legId].finalizedAt;
    if t.legs[other].startedAt.None? && t'.legs[legId].finalizedAt.Some? {
      assert Stamps(t, r, legId, FinalizedAt);
    }
  }

  lemma StepSetsOff(t: Tables, r: Request)
    requires Valid(t) && SetOff(t)
    ensures SetOff(Step(t, r).0)
  {
    var t' := Step(t, r).0;
    RowsStep(t, r);
    forall legId, other | IsSibling(t', legId, other) ensures SetsOff(t', legId, other) {
      if legId in t.legs && other in t.legs {
        LegStep(t, r, legId);
        LegStep(t, r, other);
        OldLegsSetOff(t, r, legId, other);
      } else {
        NewLegs(t, r);
        NewLegsAlone(t, r, legId, other);
      }
    }
  }

  /** A new leg's sibling is new as well. */
  lemma NewLegsAlone(t: Tables, r: Request, legId: Id, other: Id)
    requires Valid(t) && r.op.CreateRun? && Step(t, r).1.RunOut? && IsSibling(Step(t, r).0, legId, other)
    requires legId !in t.legs || other !in t.legs
    ensures (legId == r.op.newAcquisition && other == r.op.newSale) || (legId == r.op.newSale && other == r.op.newAcquisition)
    ensures SetsOff(Step(t, r).0, legId, other)
  {
    var t' := Step(t, r).0;
    NewLegs(t, r);
    assert legId in t.legs ==> LegBelongs(t, legId);
    assert other in t.legs ==> LegBelongs(t, other);
    assert IsLegOf(t', r.op.newRun, legId) && IsLegOf(t', r.op.newRun, other);
    assert t'.legs[legId].At(FinalizedAt) == t'.legs[legId].finalizedAt;
  }

  /** After any requests to an empty ledger. */
  lemma {:induction false} AlwaysSetOff(t: Tables, requests: seq<Request>)
    requires Valid(t) && SetOff(t)
    ensures SetOff(After(t, requests))
    decreases |requests|
  {
    if requests != [] {
      StepKeepsValid(t, requests[0]);
      StepSetsOff(t, requests[0]);
      AlwaysSetOff(Step(t, requests[0]).0, requests[1..]);
    }
  }
}
