/**
 * The ledger's two tables and, for every request, the tables and answer it leaves. Each request is
 * one transaction: it loads its own copies of the rows, edits them, and commits them together.
 */
module LedgerTables {
  import opened Options
  import opened TradeRunStore
  import ContainerSizes
  import CargoPacking

  datatype Tables = Tables(runs: map<Id, TradeRun>, legs: map<Id, TradeLeg>)

  datatype Reason =
    | LegFinalized | RunFinalized | NeedsTransaction | WrongLegType | AlreadyRecorded
    | NegativeAmount | UnfinishedLegs | NoPurchase | SaleRecorded

  /** NotFound answers a missing id and another pilot's alike; Conflict is a primary key already in use. */
  datatype Outcome =
    | LegOut(leg: TradeLeg) | RunOut(run: TradeRun) | Removed
    | NotFound | Refused(reason: Reason) | Conflict

  datatype Route = Route(
    commodityName: string,
    originTerminalId: int, originTerminalName: string, priceOrigin: real,
    isAutoLoadOrigin: bool, containerSizesOrigin: seq<int>,
    destinationTerminalId: int, destinationTerminalName: string, priceDestination: real,
    isAutoLoadDestination: bool, containerSizesDestination: seq<int>
  )

  datatype Transaction = Transaction(quantityScu: int, pricePerUnit: int, transferType: CargoTransferType, fee: int)

  datatype Edit = Edit(
    quantityScu: Option<int>, pricePerUnit: Option<int>, fee: Option<int>, transferType: Option<CargoTransferType>
  )

  /** The ids a new run and its legs get are drawn by the database layer. */
  datatype Op =
    | CreateRun(route: Route, quantityScu: int, ship: Option<string>, newRun: Id, newAcquisition: Id, newSale: Id)
    | AdvanceLeg(legId: Id)
    | RecordPurchase(legId: Id, transaction: Transaction)
    | RecordSale(legId: Id, transaction: Transaction)
    | UpdateTransaction(legId: Id, edit: Edit)
    | FinalizeRun(runId: Id)
    | WriteOffRun(runId: Id)
    | DeleteRun(runId: Id)

  datatype Request = Request(user: Id, now: Time, op: Op)

  // ----- Looking rows up -----

  ghost predicate IsLegOf(t: Tables, runId: Id, legId: Id) {
    legId in t.legs && t.legs[legId].runId == runId
  }

  ghost predicate OwnsLeg(t: Tables, legId: Id, user: Id) {
    legId in t.legs && t.legs[legId].userId == user
  }

  ghost predicate OwnsRun(t: Tables, runId: Id, user: Id) {
    runId in t.runs && t.runs[runId].userId == user
  }

  ghost predicate IsSibling(t: Tables, legId: Id, other: Id) {
    legId in t.legs && other != legId && IsLegOf(t, t.legs[legId].runId, other)
  }

  /** The run's other leg. */
  ghost function Sibling(t: Tables, legId: Id): Option<Id> {
    if exists other :: IsSibling(t, legId, other) then
      var other :| IsSibling(t, legId, other);
      Some(other)
    else
      None
  }

  ghost predicate IsTypedLegOf(t: Tables, runId: Id, legType: LegType, legId: Id) {
    IsLegOf(t, runId, legId) && t.legs[legId].legType == legType
  }

  ghost function LegOfType(t: Tables, runId: Id, legType: LegType): Option<Id> {
    if exists legId :: IsTypedLegOf(t, runId, legType, legId) then
      var legId :| IsTypedLegOf(t, runId, legType, legId);
      Some(legId)
    else
      None
  }

  // ----- What holds of the tables at all times -----

  /**
   * A finalized leg has every milestone, and a sale leg never records its transaction without the
   * cargo counting as transferred, whichever transfer type it shows.
   */
  predicate LegInvariant(leg: TradeLeg) {
    && (leg.finalizedAt.Some? ==>
          leg.reachedAt.Some? && leg.transactionCompletedAt.Some? && leg.transferredAt.Some?)
    && (leg.legType == Sale && leg.transactionCompletedAt.Some? ==> leg.transferredAt.Some?)
  }

  ghost predicate InFinalizedRun(t: Tables, legId: Id) {
    && legId in t.legs && t.legs[legId].runId in t.runs
    && t.runs[t.legs[legId].runId].finalizedAt.Some?
  }

  ghost predicate LegBelongs(t: Tables, legId: Id)
    requires legId in t.legs
  {
    var leg := t.legs[legId];
    && LegInvariant(leg)
    && leg.runId in t.runs
    && t.runs[leg.runId].userId == leg.userId
    && (InFinalizedRun(t, legId) ==> leg.finalizedAt.Some?)
  }

  /** The run has exactly these two legs, one of each type. */
  ghost predicate HasLegs(t: Tables, runId: Id, acquisition: Id, sale: Id) {
    && IsTypedLegOf(t, runId, Acquisition, acquisition)
    && IsTypedLegOf(t, runId, Sale, sale)
    && forall legId :: IsLegOf(t, runId, legId) ==> legId == acquisition || legId == sale
  }

  ghost predicate IsComplete(t: Tables, runId: Id) {
    exists acquisition, sale :: HasLegs(t, runId, acquisition, sale)
  }

  ghost predicate Valid(t: Tables) {
    && (forall legId {:trigger LegBelongs(t, legId)} :: legId in t.legs ==> LegBelongs(t, legId))
    && (forall runId {:trigger IsComplete(t, runId)} :: runId in t.runs ==> IsComplete(t, runId))
  }

  const EMPTY := Tables(map[], map[])

  // ----- Creating a run -----

  /** Python's round(): to the nearest integer, halves to the even one. */
  function Round(x: real): (n: int)
    ensures -0.5 <= n as real - x <= 0.5
    ensures n as real - x == 0.5 || n as real - x == -0.5 ==> n % 2 == 0
  {
    var low := x.Floor;
    var part := x - low as real;
    if part < 0.5 || (part == 0.5 && low % 2 == 0) then low else low + 1
  }

  function TransferTypeFor(autoLoad: bool): CargoTransferType {
    if autoLoad then Autoload else Manual
  }

  function NewAcquisition(r: Route, quantity: int, runId: Id, user: Id, now: Time): TradeLeg {
    TradeLeg(user, runId, Acquisition, r.originTerminalId, r.originTerminalName, r.commodityName,
             quantity, Round(r.priceOrigin), TransferTypeFor(r.isAutoLoadOrigin), 0,
             Some(now), None, None, None, None)
  }

  function NewSale(r: Route, quantity: int, runId: Id, user: Id): TradeLeg {
    TradeLeg(user, runId, Sale, r.destinationTerminalId, r.destinationTerminalName, r.commodityName,
             quantity, Round(r.priceDestination), TransferTypeFor(r.isAutoLoadDestination), 0,
             None, None, None, None, None)
  }

  function NewRun(r: Route, ship: Option<string>, user: Id, now: Time): TradeRun {
    var usable := CargoPacking.UsableContainerSizes(r.containerSizesOrigin, r.containerSizesDestination);
    TradeRun(user, ship, ContainerSizes.FormatContainerSizes(usable), now, None)
  }

  ghost predicate IdsFree(t: Tables, op: Op)
    requires op.CreateRun?
  {
    && op.newRun !in t.runs && op.newAcquisition !in t.legs && op.newSale !in t.legs
    && op.newAcquisition != op.newSale
  }

  ghost function Create(t: Tables, op: Op, user: Id, now: Time): (Tables, Outcome)
    requires op.CreateRun?
  {
    if !IdsFree(t, op) then
      (t, Conflict)
    else
      var run := NewRun(op.route, op.ship, user, now);
      var acquisition := NewAcquisition(op.route, op.quantityScu, op.newRun, user, now);
      var sale := NewSale(op.route, op.quantityScu, op.newRun, user);
      (Tables(t.runs[op.newRun := run], t.legs[op.newAcquisition := acquisition][op.newSale := sale]), RunOut(run))
  }

  // ----- Walking a leg -----

  /** Finalizing a leg starts the run's other leg, if it has not been started. */
  ghost function StartSibling(t: Tables, legId: Id, now: Time): Tables {
    match Sibling(t, legId)
    case None => t
    case Some(other) =>
      if t.legs[other].startedAt.Some? then t
      else t.(legs := t.legs[other := t.legs[other].(startedAt := Some(now))])
  }

  ghost function Advance(t: Tables, legId: Id, user: Id, now: Time): (Tables, Outcome) {
    if !OwnsLeg(t, legId, user) then (t, NotFound)
    else match NextUnsetField(t.legs[legId])
      case None => (t, Refused(LegFinalized))
      case Some(TransactionCompletedAt) => (t, Refused(NeedsTransaction))
      case Some(field) =>
        var leg := t.legs[legId].Stamp(field, now);
        var t' := t.(legs := t.legs[legId := leg]);
        (if field == FinalizedAt then StartSibling(t', legId, now) else t', LegOut(leg))
  }

  function Applied(leg: TradeLeg, tx: Transaction, now: Time, alsoTransferred: bool): TradeLeg {
    var leg' := leg.(quantityScu := tx.quantityScu, pricePerUnit := tx.pricePerUnit,
                     cargoTransferType := tx.transferType, cargoTransferFee := tx.fee,
                     transactionCompletedAt := Some(now));
    if alsoTransferred then leg'.(transferredAt := Some(now)) else leg'
  }

  /** The sale leg's planned quantity follows what was bought, until its own sale is recorded. */
  ghost function CarryForward(t: Tables, legId: Id, quantity: int): Tables {
    match Sibling(t, legId)
    case None => t
    case Some(other) =>
      if t.legs[other].transactionCompletedAt.Some? then t
      else t.(legs := t.legs[other := t.legs[other].(quantityScu := quantity)])
  }

  ghost function Purchase(t: Tables, legId: Id, tx: Transaction, user: Id, now: Time): (Tables, Outcome) {
    if !OwnsLeg(t, legId, user) then (t, NotFound)
    else if t.legs[legId].legType != Acquisition then (t, Refused(WrongLegType))
    else if t.legs[legId].transactionCompletedAt.Some? then (t, Refused(AlreadyRecorded))
    else
      var leg := Applied(t.legs[legId], tx, now, false);
      (CarryForward(t.(legs := t.legs[legId := leg]), legId, tx.quantityScu), LegOut(leg))
  }

  ghost function Sell(t: Tables, legId: Id, tx: Transaction, user: Id, now: Time): (Tables, Outcome) {
    if !OwnsLeg(t, legId, user) then (t, NotFound)
    else if t.legs[legId].legType != Sale then (t, Refused(WrongLegType))
    else if t.legs[legId].transactionCompletedAt.Some? then (t, Refused(AlreadyRecorded))
    else
      var leg := Applied(t.legs[legId], tx, now, t.legs[legId].transferredAt.None?);
      (t.(legs := t.legs[legId := leg]), LegOut(leg))
  }

  function Or<T>(edited: Option<T>, current: T): T {
    if edited.Some? then edited.value else current
  }

  function Edited(leg: TradeLeg, edit: Edit): TradeLeg {
    leg.(quantityScu := Or(edit.quantityScu, leg.quantityScu),
         pricePerUnit := Or(edit.pricePerUnit, leg.pricePerUnit),
         cargoTransferFee := Or(edit.fee, leg.cargoTransferFee),
         cargoTransferType := Or(edit.transferType, leg.cargoTransferType))
  }

  predicate Negative(n: Option<int>) {
    n.Some? && n.value < 0
  }

  ghost function Update(t: Tables, legId: Id, edit: Edit, user: Id): (Tables, Outcome) {
    if !OwnsLeg(t, legId, user) then (t, NotFound)
    else if InFinalizedRun(t, legId) then (t, Refused(RunFinalized))
    else if Negative(edit.quantityScu) || Negative(edit.pricePerUnit) || Negative(edit.fee) then (t, Refused(NegativeAmount))
    else
      var leg := Edited(t.legs[legId], edit);
      (t.(legs := t.legs[legId := leg]), LegOut(leg))
  }

  // ----- Closing a run -----

  ghost function Finalize(t: Tables, runId: Id, user: Id, now: Time): (Tables, Outcome) {
    if !OwnsRun(t, runId, user) then (t, NotFound)
    else if exists legId :: IsLegOf(t, runId, legId) && NextUnsetField(t.legs[legId]).Some? then (t, Refused(UnfinishedLegs))
    else
      var run := t.runs[runId].(finalizedAt := Some(now));
      (t.(runs := t.runs[runId := run]), RunOut(run))
  }

  function OrNow(at: Option<Time>, now: Time): Option<Time> {
    if at.None? then Some(now) else at
  }

  /** Every milestone still unset, and the start, happen now. */
  function Closed(leg: TradeLeg, now: Time): TradeLeg {
    leg.(startedAt := OrNow(leg.startedAt, now), reachedAt := OrNow(leg.reachedAt, now),
         transactionCompletedAt := OrNow(leg.transactionCompletedAt, now),
         transferredAt := OrNow(leg.transferredAt, now), finalizedAt := OrNow(leg.finalizedAt, now))
  }

  function Lost(leg: TradeLeg): TradeLeg {
    leg.(quantityScu := 0, pricePerUnit := 0, cargoTransferFee := 0)
  }

  ghost function WriteOff(t: Tables, runId: Id, user: Id, now: Time): (Tables, Outcome) {
    var acquisition, sale := LegOfType(t, runId, Acquisition), LegOfType(t, runId, Sale);
    if !OwnsRun(t, runId, user) then (t, NotFound)
    else if t.runs[runId].finalizedAt.Some? then (t, Refused(RunFinalized))
    else if acquisition.None? || t.legs[acquisition.value].transactionCompletedAt.None? then (t, Refused(NoPurchase))
    else if sale.Some? && t.legs[sale.value].transactionCompletedAt.Some? then (t, Refused(SaleRecorded))
    else
      var run := t.runs[runId].(finalizedAt := Some(now));
      var legs := t.legs[acquisition.value := Closed(t.legs[acquisition.value], now)];
      var legs' := if sale.None? then legs else legs[sale.value := Closed(Lost(t.legs[sale.value]), now)];
      (Tables(t.runs[runId := run], legs'), RunOut(run))
  }

  /** Deleting a run deletes its legs with it. */
  ghost function Delete(t: Tables, runId: Id, user: Id): (Tables, Outcome) {
    if !OwnsRun(t, runId, user) then (t, NotFound)
    else
      (Tables(t.runs - {runId}, map legId | legId in t.legs && t.legs[legId].runId != runId :: t.legs[legId]), Removed)
  }

  // ----- Requests and whole runs of them -----

  ghost function Step(t: Tables, r: Request): (Tables, Outcome) {
    match r.op
    case CreateRun(_, _, _, _, _, _) => Create(t, r.op, r.user, r.now)
    case AdvanceLeg(legId) => Advance(t, legId, r.user, r.now)
    case RecordPurchase(legId, tx) => Purchase(t, legId, tx, r.user, r.now)
    case RecordSale(legId, tx) => Sell(t, legId, tx, r.user, r.now)
    case UpdateTransaction(legId, edit) => Update(t, legId, edit, r.user)
    case FinalizeRun(runId) => Finalize(t, runId, r.user, r.now)
    case WriteOffRun(runId) => WriteOff(t, runId, r.user, r.now)
    case DeleteRun(runId) => Delete(t, runId, r.user)
  }

  ghost function After(t: Tables, requests: seq<Request>): Tables
    decreases |requests|
  {
    if requests == [] then t else After(Step(t, requests[0]).0, requests[1..])
  }
}
