/** Trade runs and their legs, and the helpers that read already loaded ones. */
module TradeRunStore {
  import opened Options

  type Id = nat
  type Time = int

  datatype LegType = Acquisition | Sale

  datatype CargoTransferType = Manual | Autoload

  datatype Milestone = ReachedAt | TransactionCompletedAt | TransferredAt | FinalizedAt

  datatype TradeLeg = TradeLeg(
    userId: Id, runId: Id, legType: LegType,
    terminalId: int, terminalName: string, commodityName: string,
    quantityScu: int, pricePerUnit: int, cargoTransferType: CargoTransferType, cargoTransferFee: int,
    startedAt: Option<Time>, reachedAt: Option<Time>, transactionCompletedAt: Option<Time>,
    transferredAt: Option<Time>, finalizedAt: Option<Time>
  ) {
    function At(m: Milestone): Option<Time> {
      match m
      case ReachedAt => reachedAt
      case TransactionCompletedAt => transactionCompletedAt
      case TransferredAt => transferredAt
      case FinalizedAt => finalizedAt
    }

    function Stamp(m: Milestone, now: Time): TradeLeg {
      match m
      case ReachedAt => this.(reachedAt := Some(now))
      case TransactionCompletedAt => this.(transactionCompletedAt := Some(now))
      case TransferredAt => this.(transferredAt := Some(now))
      case FinalizedAt => this.(finalizedAt := Some(now))
    }
  }

  datatype TradeRun = TradeRun(
    userId: Id, ship: Option<string>, usableContainerSizes: string, createdAt: Time, finalizedAt: Option<Time>
  )

  // ----- Milestones -----

  const ACQUISITION_SEQUENCE := [ReachedAt, TransactionCompletedAt, TransferredAt, FinalizedAt]
  const SALE_MANUAL_SEQUENCE := [ReachedAt, TransferredAt, TransactionCompletedAt, FinalizedAt]
  const SALE_AUTOLOAD_SEQUENCE := [ReachedAt, TransactionCompletedAt, FinalizedAt]

  function MilestoneSequence(leg: TradeLeg): seq<Milestone> {
    if leg.legType == Acquisition then ACQUISITION_SEQUENCE
    else if leg.cargoTransferType == Manual then SALE_MANUAL_SEQUENCE
    else SALE_AUTOLOAD_SEQUENCE
  }

  function FirstUnset(leg: TradeLeg, fields: seq<Milestone>): Option<Milestone> {
    if fields == [] then None
    else if leg.At(fields[0]).None? then Some(fields[0])
    else FirstUnset(leg, fields[1..])
  }

  function NextUnsetField(leg: TradeLeg): Option<Milestone> {
    FirstUnset(leg, MilestoneSequence(leg))
  }

  ghost predicate IsFirstUnset(leg: TradeLeg, fields: seq<Milestone>, k: nat)
    requires k < |fields|
  {
    leg.At(fields[k]).None? && forall j :: 0 <= j < k ==> leg.At(fields[j]).Some?
  }

  /** What FirstUnset finds, and that it skips nothing. */
  lemma {:induction false} FirstUnsetIsFirst(leg: TradeLeg, fields: seq<Milestone>)
    ensures match FirstUnset(leg, fields)
            case None => forall k :: 0 <= k < |fields| ==> leg.At(fields[k]).Some?
            case Some(m) => exists k :: 0 <= k < |fields| && IsFirstUnset(leg, fields, k) && fields[k] == m
  {
    if fields != [] && leg.At(fields[0]).Some? {
      FirstUnsetIsFirst(leg, fields[1..]);
      match FirstUnset(leg, fields[1..])
      case None =>
        assert forall k :: 1 <= k < |fields| ==> fields[k] == fields[1..][k - 1];
      case Some(m) =>
        var k :| 0 <= k < |fields[1..]| && IsFirstUnset(leg, fields[1..], k) && fields[1..][k] == m;
        assert IsFirstUnset(leg, fields, k + 1) && fields[k + 1] == m;
    } else if fields != [] {
      assert IsFirstUnset(leg, fields, 0);
    }
  }

  /** NextUnsetField spelled out for the three sequences. */
  lemma NextUnsetFieldCases(leg: TradeLeg)
    ensures NextUnsetField(leg) ==
      if leg.reachedAt.None? then Some(ReachedAt)
      else if leg.legType == Sale && leg.cargoTransferType == Manual && leg.transferredAt.None? then Some(TransferredAt)
      else if leg.transactionCompletedAt.None? then Some(TransactionCompletedAt)
      else if leg.legType == Acquisition && leg.transferredAt.None? then Some(TransferredAt)
      else if leg.finalizedAt.None? then Some(FinalizedAt)
      else None
  {
    var s := MilestoneSequence(leg);
    assert FirstUnset(leg, s[1..]) == if leg.At(s[1]).None? then Some(s[1]) else FirstUnset(leg, s[1..][1..]);
    assert FirstUnset(leg, s[1..][1..]) == if leg.At(s[2]).None? then Some(s[2]) else FirstUnset(leg, s[1..][1..][1..]);
    if |s| == 4 {
      assert s[1..][1..][1..] == [s[3]];
      assert FirstUnset(leg, [s[3]]) == if leg.At(s[3]).None? then Some(s[3]) else None;
    } else {
      assert s[1..][1..][1..] == [];
    }
  }

  /** The set milestones come first in the leg's current sequence. */
  ghost predicate InOrder(leg: TradeLeg) {
    forall i, j :: 0 <= i < j < |MilestoneSequence(leg)| && leg.At(MilestoneSequence(leg)[j]).Some? ==>
      leg.At(MilestoneSequence(leg)[i]).Some?
  }

  /** How many of the four milestones are unset. */
  function UnsetCount(leg: TradeLeg): nat {
    (if leg.reachedAt.None? then 1 else 0) + (if leg.transactionCompletedAt.None? then 1 else 0)
    + (if leg.transferredAt.None? then 1 else 0) + (if leg.finalizedAt.None? then 1 else 0)
  }

  // ----- Money -----

  function RunInvestment(legs: seq<TradeLeg>): int {
    if legs == [] then 0
    else (if legs[0].legType == Acquisition then legs[0].quantityScu * legs[0].pricePerUnit else 0)
         + RunInvestment(legs[1..])
  }

  function RunRevenue(legs: seq<TradeLeg>): int {
    if legs == [] then 0
    else (if legs[0].legType == Sale then legs[0].quantityScu * legs[0].pricePerUnit else 0) + RunRevenue(legs[1..])
  }

  function RunFees(legs: seq<TradeLeg>): int {
    if legs == [] then 0 else legs[0].cargoTransferFee + RunFees(legs[1..])
  }

  function RunProfit(legs: seq<TradeLeg>): int {
    RunRevenue(legs) - RunInvestment(legs) - RunFees(legs)
  }
}
