/** The ledger's promises over whole runs of requests: frozen runs, isolated pilots, done legs, ordered milestones. */
module LedgerTheorems {
  import opened Options
  import opened TradeRunStore
  import opened LedgerTables
  import opened LedgerInvariants

  // ----- A finalized run is frozen -----

  ghost predicate RunFrozen(t: Tables, runId: Id) {
    runId in t.runs && t.runs[runId].finalizedAt.Some?
  }

  ghost predicate SameLeg(t: Tables, t': Tables, legId: Id) {
    (legId in t.legs <==> legId in t'.legs) && (legId in t.legs ==> t'.legs[legId] == t.legs[legId])
  }

  /** Every row of the run is as before, except when the run was last stamped as finalized. */
  ghost predicate Kept(t: Tables, t': Tables, runId: Id) {
    && RunFrozen(t, runId) && RunFrozen(t', runId)
    && t'.runs[runId].(finalizedAt := t.runs[runId].finalizedAt) == t.runs[runId]
    && forall legId :: IsLegOf(t, runId, legId) || IsLegOf(t', runId, legId) ==> SameLeg(t, t', legId)
  }

  /** In a finalized run every leg has every milestone, so nothing is left to advance or record. */
  lemma FrozenLegIsDone(t: Tables, legId: Id)
    requires Valid(t) && InFinalizedRun(t, legId)
    ensures NextUnsetField(t.legs[legId]).None?
    ensures t.legs[legId].transactionCompletedAt.Some?
  {
    assert LegBelongs(t, legId);
    NextUnsetFieldCases(t.legs[legId]);
  }

  lemma OtherLegsKept(t: Tables, t': Tables, first: Id, second: Id, runId: Id)
    requires Valid(t) && RunFrozen(t, runId) && OnlyLegs(t, t', first, second)
    requires first in t.legs && t'.legs[first].runId == t.legs[first].runId
    requires second in t.legs && t'.legs[second].runId == t.legs[second].runId
    requires t.legs[first].runId != runId && t.legs[second].runId != runId
    ensures Kept(t, t', runId)
  {
  }

  lemma FrozenAdvance(t: Tables, legId: Id, user: Id, now: Time, runId: Id)
    requires Valid(t) && RunFrozen(t, runId)
    ensures Kept(t, Advance(t, legId, user, now).0, runId)
  {
    if OwnsLeg(t, legId, user) {
      var other := AdvanceEffect(t, legId, user, now);
      if t.legs[legId].runId == runId {
        FrozenLegIsDone(t, legId);
      } else if Advance(t, legId, user, now).1.LegOut? {
        OtherLegsKept(t, Advance(t, legId, user, now).0, legId, other, runId);
      }
    }
  }

  lemma FrozenPurchase(t: Tables, legId: Id, tx: Transaction, user: Id, now: Time, runId: Id)
    requires Valid(t) && RunFrozen(t, runId)
    ensures Kept(t, Purchase(t, legId, tx, user, now).0, runId)
  {
    if OwnsLeg(t, legId, user) {
      var other := PurchaseEffect(t, legId, tx, user, now);
      if t.legs[legId].runId == runId {
        FrozenLegIsDone(t, legId);
      } else if Purchase(t, legId, tx, user, now).1.LegOut? {
        OtherLegsKept(t, Purchase(t, legId, tx, user, now).0, legId, other, runId);
      }
    }
  }

  lemma FrozenSell(t: Tables, legId: Id, tx: Transaction, user: Id, now: Time, runId: Id)
    requires Valid(t) && RunFrozen(t, runId)
    ensures Kept(t, Sell(t, legId, tx, user, now).0, runId)
  {
    if OwnsLeg(t, legId, user) && t.legs[legId].runId == runId {
      FrozenLegIsDone(t, legId);
    }
  }

  lemma FrozenWriteOff(t: Tables, writtenOff: Id, user: Id, now: Time, runId: Id)
    requires Valid(t) && RunFrozen(t, runId)
    ensures Kept(t, WriteOff(t, writtenOff, user, now).0, runId)
  {
    if OwnsRun(t, writtenOff, user) {
      var a, s := WriteOffEffect(t, writtenOff, user, now);
    }
  }

  /** No request but its own deletion changes anything in a finalized run. */
  lemma FrozenStep(t: Tables, r: Request, runId: Id)
    requires Valid(t) && RunFrozen(t, runId) && r.op != DeleteRun(runId)
    ensures Kept(t, Step(t, r).0, runId)
  {
    match r.op
    case CreateRun(_, _, _, _, _, _) =>
    case AdvanceLeg(legId) => FrozenAdvance(t, legId, r.user, r.now, runId);
    case RecordPurchase(legId, tx) => FrozenPurchase(t, legId, tx, r.user, r.now, runId);
    case RecordSale(legId, tx) => FrozenSell(t, legId, tx, r.user, r.now, runId);
    case UpdateTransaction(_, _) =>
    case FinalizeRun(_) =>
    case WriteOffRun(other) => FrozenWriteOff(t, other, r.user, r.now, runId);
    case DeleteRun(_) =>
  }

  /** Its finalization time changes in just one way: its owner finalizes it again at another time. */
  lemma RestampedIffFinalizedAgain(t: Tables, r: Request, runId: Id)
    requires Valid(t) && RunFrozen(t, runId) && r.op != DeleteRun(runId)
    ensures runId in Step(t, r).0.runs
    ensures Step(t, r).0.runs[runId].finalizedAt != t.runs[runId].finalizedAt
      <==> r.op == FinalizeRun(runId) && r.user == t.runs[runId].userId && t.runs[runId].finalizedAt != Some(r.now)
  {
    FrozenStep(t, r, runId);
    match r.op
    case AdvanceLeg(legId) =>
      if OwnsLeg(t, legId, r.user) {
        var other := AdvanceEffect(t, legId, r.user, r.now);
      }
    case RecordPurchase(legId, tx) =>
      if OwnsLeg(t, legId, r.user) {
        var other := PurchaseEffect(t, legId, tx, r.user, r.now);
      }
    case WriteOffRun(other) =>
      if OwnsRun(t, other, r.user) {
        var a, s := WriteOffEffect(t, other, r.user, r.now);
      }
    case FinalizeRun(other) =>
      if other == runId {
        forall legId | IsLegOf(t, runId, legId) ensures NextUnsetField(t.legs[legId]).None? {
          FrozenLegIsDone(t, legId);
        }
      }
    case _ =>
  }

  lemma KeptTransitive(t: Tables, t': Tables, t'': Tables, runId: Id)
    requires Kept(t, t', runId) && Kept(t', t'', runId)
    ensures Kept(t, t'', runId)
  {
    forall legId | IsLegOf(t, runId, legId) || IsLegOf(t'', runId, legId) ensures SameLeg(t, t'', legId) {
      if IsLegOf(t, runId, legId) {
        assert SameLeg(t, t', legId);
        assert SameLeg(t', t'', legId);
      } else {
        assert SameLeg(t', t'', legId);
        assert SameLeg(t, t', legId);
      }
    }
  }

  /** Over any requests of any pilots that do not delete it, a finalized run stays frozen. */
  lemma {:induction false} FrozenRun(t: Tables, requests: seq<Request>, runId: Id)
    requires Valid(t) && RunFrozen(t, runId)
    requires forall k :: 0 <= k < |requests| ==> requests[k].op != DeleteRun(runId)
    ensures Kept(t, After(t, requests), runId)
    decreases |requests|
  {
    if requests != [] {
      var t' := Step(t, requests[0]).0;
      FrozenStep(t, requests[0], runId);
      StepKeepsValid(t, requests[0]);
      FrozenRun(t', requests[1..], runId);
      KeptTransitive(t, t', After(t', requests[1..]), runId);
    }
  }

  // ----- Its profit is frozen with it -----

  /** ids lists the run's legs, each once, in whatever order the database returned them. */
  ghost predicate Lists(t: Tables, runId: Id, ids: seq<Id>) {
    && (forall legId :: legId in ids <==> IsLegOf(t, runId, legId))
    && forall i, j :: 0 <= i < j < |ids| ==> ids[i] != ids[j]
  }

  ghost function Rows(t: Tables, ids: seq<Id>): (rows: seq<TradeLeg>)
    requires forall k :: 0 <= k < |ids| ==> ids[k] in t.legs
  {
    if ids == [] then [] else [t.legs[ids[0]]] + Rows(t, ids[1..])
  }

  lemma ListsInTables(t: Tables, runId: Id, ids: seq<Id>)
    requires Lists(t, runId, ids)
    ensures forall k :: 0 <= k < |ids| ==> ids[k] in t.legs
  {
    forall k | 0 <= k < |ids| ensures ids[k] in t.legs {
      assert ids[k] in ids;
    }
  }

  lemma SomeRepeat(ids: seq<Id>, a: Id, s: Id)
    requires |ids| > 2 && forall k :: 0 <= k < |ids| ==> ids[k] == a || ids[k] == s
    ensures exists i, j :: 0 <= i < j < |ids| && ids[i] == ids[j]
  {
    assert ids[0] == ids[1] || ids[0] == ids[2] || ids[1] == ids[2];
  }

  lemma ListsTwo(t: Tables, runId: Id, ids: seq<Id>, a: Id, s: Id)
    requires HasLegs(t, runId, a, s) && a != s && Lists(t, runId, ids)
    ensures ids == [a, s] || ids == [s, a]
  {
    assert a in ids && s in ids;
    forall k | 0 <= k < |ids| ensures ids[k] == a || ids[k] == s {
      assert ids[k] in ids;
    }
    if |ids| > 2 {
      SomeRepeat(ids, a, s);
    }
  }

  /** The run's figures from its two legs, whatever order they are listed in. */
  lemma FiguresOfTwo(t: Tables, runId: Id, ids: seq<Id>, a: Id, s: Id)
    requires HasLegs(t, runId, a, s) && a != s && Lists(t, runId, ids)
    ensures forall k :: 0 <= k < |ids| ==> ids[k] in t.legs
    ensures RunInvestment(Rows(t, ids)) == t.legs[a].quantityScu * t.legs[a].pricePerUnit
    ensures RunRevenue(Rows(t, ids)) == t.legs[s].quantityScu * t.legs[s].pricePerUnit
    ensures RunFees(Rows(t, ids)) == t.legs[a].cargoTransferFee + t.legs[s].cargoTransferFee
  {
    ListsTwo(t, runId, ids, a, s);
    ListsInTables(t, runId, ids);
    var first, second := t.legs[ids[0]], t.legs[ids[1]];
    assert Rows(t, ids[1..]) == [second] + Rows(t, ids[1..][1..]);
    assert ids[1..][1..] == [];
    assert Rows(t, ids) == [first, second];
    assert [first, second][1..] == [second] && [second][1..] == [];
    SingleLeg(second);
  }

  lemma SingleLeg(leg: TradeLeg)
    ensures RunInvestment([leg]) == if leg.legType == Acquisition then leg.quantityScu * leg.pricePerUnit else 0
    ensures RunRevenue([leg]) == if leg.legType == Sale then leg.quantityScu * leg.pricePerUnit else 0
    ensures RunFees([leg]) == leg.cargoTransferFee
  {
    assert [leg][1..] == [];
  }

  /** An accepted purchase is the run's investment, an accepted sale its revenue, and their fees join the run's. */
  lemma RecordedTransactionCounts(t: Tables, r: Request, legId: Id, tx: Transaction, ids: seq<Id>)
    requires Valid(t) && (r.op == RecordPurchase(legId, tx) || r.op == RecordSale(legId, tx)) && Step(t, r).1.LegOut?
    requires legId in t.legs && Lists(t, t.legs[legId].runId, ids)
    ensures forall k :: 0 <= k < |ids| ==> ids[k] in t.legs && ids[k] in Step(t, r).0.legs
    ensures var before, after := Rows(t, ids), Rows(Step(t, r).0, ids);
            && RunFees(after) - RunFees(before) == tx.fee - t.legs[legId].cargoTransferFee
            && (if r.op.RecordPurchase? then RunInvestment(after) == tx.quantityScu * tx.pricePerUnit
                else RunRevenue(after) == tx.quantityScu * tx.pricePerUnit && RunInvestment(after) == RunInvestment(before))
  {
    var a, s := SiblingOf(t, legId);
    var other := RecordedLegs(t, r, legId, tx);
    SameTwoLegs(t, Step(t, r).0, t.legs[legId].runId, a, s, ids);
    if r.op.RecordPurchase? {
      BoughtFigures(t, Step(t, r).0, t.legs[legId].runId, legId, other, ids);
    } else {
      SoldFigures(t, Step(t, r).0, t.legs[legId].runId, other, legId, ids);
    }
  }

  lemma BoughtFigures(t: Tables, t': Tables, runId: Id, a: Id, s: Id, ids: seq<Id>)
    requires HasLegs(t, runId, a, s) && a != s && Lists(t, runId, ids)
    requires HasLegs(t', runId, a, s) && Lists(t', runId, ids) && t'.legs[s].cargoTransferFee == t.legs[s].cargoTransferFee
    ensures forall k :: 0 <= k < |ids| ==> ids[k] in t.legs && ids[k] in t'.legs
    ensures RunFees(Rows(t', ids)) - RunFees(Rows(t, ids)) == t'.legs[a].cargoTransferFee - t.legs[a].cargoTransferFee
    ensures RunInvestment(Rows(t', ids)) == t'.legs[a].quantityScu * t'.legs[a].pricePerUnit
  {
    FiguresOfTwo(t, runId, ids, a, s);
    FiguresOfTwo(t', runId, ids, a, s);
  }

  lemma SoldFigures(t: Tables, t': Tables, runId: Id, a: Id, s: Id, ids: seq<Id>)
    requires HasLegs(t, runId, a, s) && a != s && Lists(t, runId, ids)
    requires HasLegs(t', runId, a, s) && Lists(t', runId, ids) && t'.legs[a] == t.legs[a]
    ensures forall k :: 0 <= k < |ids| ==> ids[k] in t.legs && ids[k] in t'.legs
    ensures RunFees(Rows(t', ids)) - RunFees(Rows(t, ids)) == t'.legs[s].cargoTransferFee - t.legs[s].cargoTransferFee
    ensures RunRevenue(Rows(t', ids)) == t'.legs[s].quantityScu * t'.legs[s].pricePerUnit
    ensures RunInvestment(Rows(t', ids)) == RunInvestment(Rows(t, ids))
  {
    FiguresOfTwo(t, runId, ids, a, s);
    FiguresOfTwo(t', runId, ids, a, s);
  }

  /** The recorded leg takes the transaction's figures; its sibling keeps its fee, and under a sale everything. */
  lemma RecordedLegs(t: Tables, r: Request, legId: Id, tx: Transaction) returns (other: Id)
    requires Valid(t) && (r.op == RecordPurchase(legId, tx) || r.op == RecordSale(legId, tx)) && Step(t, r).1.LegOut?
    requires legId in t.legs
    ensures IsSibling(t, legId, other) && OnlyLegs(t, Step(t, r).0, legId, other)
    ensures t.legs[legId].legType == if r.op.RecordPurchase? then Acquisition else Sale
    ensures var before, leg := t.legs[legId], Step(t, r).0.legs[legId];
            && leg.runId == before.runId && leg.legType == before.legType
            && leg.quantityScu == tx.quantityScu && leg.pricePerUnit == tx.pricePerUnit && leg.cargoTransferFee == tx.fee
    ensures var before, leg := t.legs[other], Step(t, r).0.legs[other];
            && leg.runId == before.runId && leg.legType == before.legType
            && leg.cargoTransferFee == before.cargoTransferFee && (r.op.RecordSale? ==> leg == before)
  {
    var a, s := SiblingOf(t, legId);
    other := if legId == a then s else a;
    if r.op.RecordPurchase? {
      other := PurchaseEffect(t, legId, tx, r.user, r.now);
    }
  }

  lemma SameTwoLegs(t: Tables, t': Tables, runId: Id, a: Id, s: Id, ids: seq<Id>)
    requires HasLegs(t, runId, a, s) && Lists(t, runId, ids) && t'.legs.Keys == t.legs.Keys
    requires forall legId :: legId in t.legs ==>
               t'.legs[legId].runId == t.legs[legId].runId && t'.legs[legId].legType == t.legs[legId].legType
    ensures HasLegs(t', runId, a, s) && Lists(t', runId, ids)
  {
    assert forall legId :: IsLegOf(t', runId, legId) <==> IsLegOf(t, runId, legId);
  }

  lemma KeptLegs(t: Tables, t': Tables, runId: Id, a: Id, s: Id)
    requires Kept(t, t', runId) && HasLegs(t, runId, a, s)
    ensures HasLegs(t', runId, a, s) && t'.legs[a] == t.legs[a] && t'.legs[s] == t.legs[s]
  {
    assert SameLeg(t, t', a) && SameLeg(t, t', s);
    forall legId | IsLegOf(t', runId, legId) ensures legId == a || legId == s {
      assert SameLeg(t, t', legId);
      assert IsLegOf(t, runId, legId);
    }
  }

  /** However its legs are listed before and after, a finalized run's profit never changes. */
  lemma {:induction false} FrozenProfit(t: Tables, requests: seq<Request>, runId: Id, ids: seq<Id>, later: seq<Id>)
    requires Valid(t) && RunFrozen(t, runId)
    requires forall k :: 0 <= k < |requests| ==> requests[k].op != DeleteRun(runId)
    requires Lists(t, runId, ids) && Lists(After(t, requests), runId, later)
    ensures forall k :: 0 <= k < |ids| ==> ids[k] in t.legs
    ensures forall k :: 0 <= k < |later| ==> later[k] in After(t, requests).legs
    ensures RunProfit(Rows(After(t, requests), later)) == RunProfit(Rows(t, ids))
  {
    FrozenRun(t, requests, runId);
    KeptProfit(t, After(t, requests), runId, ids, later);
  }

  lemma KeptProfit(t: Tables, t': Tables, runId: Id, ids: seq<Id>, later: seq<Id>)
    requires Valid(t) && Kept(t, t', runId) && Lists(t, runId, ids) && Lists(t', runId, later)
    ensures forall k :: 0 <= k < |ids| ==> ids[k] in t.legs
    ensures forall k :: 0 <= k < |later| ==> later[k] in t'.legs
    ensures RunProfit(Rows(t', later)) == RunProfit(Rows(t, ids))
  {
    var a, s := LegsOfRun(t, runId);
    KeptLegs(t, t', runId, a, s);
    FiguresOfTwo(t, runId, ids, a, s);
    FiguresOfTwo(t', runId, later, a, s);
  }

  /** What a write-off leaves: both legs still there, the run frozen, the sale worth nothing. */
  lemma WrittenOffLegs(t: Tables, r: Request, runId: Id) returns (a: Id, s: Id)
    requires Valid(t) && r.op == WriteOffRun(runId) && Step(t, r).1.RunOut?
    ensures var t' := Step(t, r).0;
            && HasLegs(t, runId, a, s) && HasLegs(t', runId, a, s) && a != s && RunFrozen(t', runId)
            && t'.legs[a] == Closed(t.legs[a], r.now) && t'.legs[s] == Closed(Lost(t.legs[s]), r.now)
  {
    a, s := WriteOffEffect(t, runId, r.user, r.now);
    var t' := Step(t, r).0;
    forall legId | IsLegOf(t', runId, legId) ensures legId == a || legId == s {
      assert IsLegOf(t, runId, legId);
    }
  }

  /** A written-off run loses what was bought plus the fees, now and after any later requests. */
  lemma {:induction false} WrittenOffLoss(t: Tables, r: Request, requests: seq<Request>, runId: Id, ids: seq<Id>, later: seq<Id>)
    requires Valid(t) && r.op == WriteOffRun(runId) && Step(t, r).1.RunOut?
    requires forall k :: 0 <= k < |requests| ==> requests[k].op != DeleteRun(runId)
    requires Lists(t, runId, ids) && Lists(After(Step(t, r).0, requests), runId, later)
    ensures forall k :: 0 <= k < |ids| ==> ids[k] in t.legs
    ensures forall k :: 0 <= k < |later| ==> later[k] in After(Step(t, r).0, requests).legs
    ensures var rows := Rows(After(Step(t, r).0, requests), later);
            && RunProfit(rows) == -(RunInvestment(rows) + RunFees(rows))
            && RunInvestment(rows) == RunInvestment(Rows(t, ids))
  {
    var t' := Step(t, r).0;
    var t'' := After(t', requests);
    var a, s := WrittenOffLegs(t, r, runId);
    StepKeepsValid(t, r);
    FrozenRun(t', requests, runId);
    KeptLegs(t', t'', runId, a, s);
    FiguresOfTwo(t, runId, ids, a, s);
    FiguresOfTwo(t'', runId, later, a, s);
  }

  // ----- Editing a leg -----

  /** Editing a done leg keeps it done, and a pending one pending, whatever sequence the edit switches it to. */
  lemma EditKeepsDone(t: Tables, legId: Id, edit: Edit, user: Id)
    requires Valid(t) && legId in t.legs
    ensures var t' := Update(t, legId, edit, user).0;
            && legId in t'.legs
            && (NextUnsetField(t'.legs[legId]).None? <==> NextUnsetField(t.legs[legId]).None?)
  {
    assert LegBelongs(t, legId);
    var t' := Update(t, legId, edit, user).0;
    NextUnsetFieldCases(t.legs[legId]);
    NextUnsetFieldCases(t'.legs[legId]);
  }

  // ----- Milestones in order -----

  /** A client that records a transaction only once the leg has reached the point of sale or purchase. */
  ghost predicate Disciplined(t: Tables, r: Request) {
    match r.op
    case RecordPurchase(legId, _) => legId in t.legs ==> t.legs[legId].reachedAt.Some?
    case RecordSale(legId, _) => legId in t.legs ==> t.legs[legId].reachedAt.Some?
    case _ => true
  }

  ghost predicate AllDisciplined(t: Tables, requests: seq<Request>)
    decreases |requests|
  {
    requests != [] ==> Disciplined(t, requests[0]) && AllDisciplined(Step(t, requests[0]).0, requests[1..])
  }

  /** In order whichever transfer type the leg is edited to. */
  ghost predicate InOrderForAnyType(leg: TradeLeg) {
    InOrder(leg.(cargoTransferType := Manual)) && InOrder(leg.(cargoTransferType := Autoload))
  }

  ghost predicate AllInOrder(t: Tables) {
    forall legId :: legId in t.legs ==> InOrderForAnyType(t.legs[legId])
  }

  /** InOrder spelled out for the three sequences. */
  lemma InOrderCases(leg: TradeLeg)
    ensures InOrder(leg) <==>
      if leg.legType == Acquisition then
        && (leg.finalizedAt.Some? ==> leg.transferredAt.Some?)
        && (leg.transferredAt.Some? ==> leg.transactionCompletedAt.Some?)
        && (leg.transactionCompletedAt.Some? ==> leg.reachedAt.Some?)
        && (leg.finalizedAt.Some? ==> leg.transactionCompletedAt.Some?)
        && (leg.finalizedAt.Some? || leg.transferredAt.Some? ==> leg.reachedAt.Some?)
      else if leg.cargoTransferType == Manual then
        && (leg.finalizedAt.Some? ==> leg.transactionCompletedAt.Some?)
        && (leg.transactionCompletedAt.Some? ==> leg.transferredAt.Some?)
        && (leg.transferredAt.Some? ==> leg.reachedAt.Some?)
        && (leg.finalizedAt.Some? ==> leg.transferredAt.Some?)
        && (leg.finalizedAt.Some? || leg.transactionCompletedAt.Some? ==> leg.reachedAt.Some?)
      else
        && (leg.finalizedAt.Some? ==> leg.transactionCompletedAt.Some?)
        && (leg.transactionCompletedAt.Some? || leg.finalizedAt.Some? ==> leg.reachedAt.Some?)
  {
    var s := MilestoneSequence(leg);
    if InOrder(leg) {
      assert leg.At(s[1]).Some? ==> leg.At(s[0]).Some?;
      assert leg.At(s[2]).Some? ==> leg.At(s[0]).Some? && leg.At(s[1]).Some?;
      assert |s| == 4 ==> leg.At(s[3]).Some? ==> leg.At(s[0]).Some? && leg.At(s[1]).Some? && leg.At(s[2]).Some?;
    }
  }

  lemma AnyTypeCases(leg: TradeLeg)
    ensures InOrderForAnyType(leg) ==> InOrder(leg)
    ensures InOrderForAnyType(leg) <==>
      if leg.legType == Acquisition then
        && (leg.finalizedAt.Some? ==> leg.transferredAt.Some?)
        && (leg.transferredAt.Some? ==> leg.transactionCompletedAt.Some?)
        && (leg.transactionCompletedAt.Some? ==> leg.reachedAt.Some?)
      else
        && (leg.finalizedAt.Some? ==> leg.transactionCompletedAt.Some?)
        && (leg.transactionCompletedAt.Some? ==> leg.transferredAt.Some?)
        && (leg.transferredAt.Some? ==> leg.reachedAt.Some?)
  {
    InOrderCases(leg.(cargoTransferType := Manual));
    InOrderCases(leg.(cargoTransferType := Autoload));
    if leg.cargoTransferType == Manual {
      assert leg.(cargoTransferType := Manual) == leg;
    } else {
      assert leg.(cargoTransferType := Autoload) == leg;
    }
  }

  lemma OrderedAdvance(t: Tables, legId: Id, user: Id, now: Time)
    requires Valid(t) && AllInOrder(t)
    ensures AllInOrder(Advance(t, legId, user, now).0)
  {
    if OwnsLeg(t, legId, user) {
      var other := AdvanceEffect(t, legId, user, now);
      var t' := Advance(t, legId, user, now).0;
      NextUnsetFieldCases(t.legs[legId]);
      AnyTypeCases(t.legs[legId]);
      AnyTypeCases(t'.legs[legId]);
      AnyTypeCases(t.legs[other]);
      AnyTypeCases(t'.legs[other]);
    }
  }

  lemma OrderedPurchase(t: Tables, legId: Id, tx: Transaction, user: Id, now: Time)
    requires Valid(t) && AllInOrder(t) && (legId in t.legs ==> t.legs[legId].reachedAt.Some?)
    ensures AllInOrder(Purchase(t, legId, tx, user, now).0)
  {
    if OwnsLeg(t, legId, user) {
      var other := PurchaseEffect(t, legId, tx, user, now);
      var t' := Purchase(t, legId, tx, user, now).0;
      AnyTypeCases(t.legs[legId]);
      AnyTypeCases(t'.legs[legId]);
      AnyTypeCases(t.legs[other]);
      AnyTypeCases(t'.legs[other]);
      forall l | l in t'.legs ensures InOrderForAnyType(t'.legs[l]) {
        assert InOrderForAnyType(t.legs[l]);
      }
    }
  }

  /** An edit may switch a sale leg to another sequence; its milestones are in order there too. */
  lemma OrderedUpdate(t: Tables, legId: Id, edit: Edit, user: Id)
    requires Valid(t) && AllInOrder(t)
    ensures AllInOrder(Update(t, legId, edit, user).0)
  {
    var t' := Update(t, legId, edit, user).0;
    if legId in t.legs {
      assert LegBelongs(t, legId);
      AnyTypeCases(t.legs[legId]);
      AnyTypeCases(t'.legs[legId]);
    }
  }

  lemma OrderedWriteOff(t: Tables, runId: Id, user: Id, now: Time)
    requires Valid(t) && AllInOrder(t)
    ensures AllInOrder(WriteOff(t, runId, user, now).0)
  {
    if OwnsRun(t, runId, user) {
      var a, s := WriteOffEffect(t, runId, user, now);
      AnyTypeCases(Closed(t.legs[a], now));
      AnyTypeCases(Closed(Lost(t.legs[s]), now));
    }
  }

  lemma OrderedStep(t: Tables, r: Request)
    requires Valid(t) && AllInOrder(t) && Disciplined(t, r)
    ensures AllInOrder(Step(t, r).0)
  {
    match r.op
    case CreateRun(route, quantity, _, runId, _, _) =>
      AnyTypeCases(NewAcquisition(route, quantity, runId, r.user, r.now));
      AnyTypeCases(NewSale(route, quantity, runId, r.user));
    case AdvanceLeg(legId) => OrderedAdvance(t, legId, r.user, r.now);
    case RecordPurchase(legId, tx) => OrderedPurchase(t, legId, tx, r.user, r.now);
    case RecordSale(legId, tx) =>
      if legId in t.legs {
        AnyTypeCases(t.legs[legId]);
        AnyTypeCases(Applied(t.legs[legId], tx, r.now, t.legs[legId].transferredAt.None?));
      }
    case UpdateTransaction(legId, edit) => OrderedUpdate(t, legId, edit, r.user);
    case FinalizeRun(_) =>
    case WriteOffRun(runId) => OrderedWriteOff(t, runId, r.user, r.now);
    case DeleteRun(_) =>
  }

  /** Under that discipline every leg's milestones stay in order, over any requests and any type edits. */
  lemma {:induction false} AlwaysInOrder(t: Tables, requests: seq<Request>)
    requires Valid(t) && AllInOrder(t) && AllDisciplined(t, requests)
    ensures AllInOrder(After(t, requests))
    decreases |requests|
  {
    if requests != [] {
      StepKeepsValid(t, requests[0]);
      OrderedStep(t, requests[0]);
      AlwaysInOrder(Step(t, requests[0]).0, requests[1..]);
    }
  }

  /** The server does not enforce it: a recorded transaction leaves the leg in order exactly when it had been reached. */
  lemma RecordingKeepsOrderIffReached(t: Tables, r: Request, legId: Id)
    requires Valid(t) && legId in t.legs && InOrder(t.legs[legId])
    requires (r.op.RecordPurchase? || r.op.RecordSale?) && r.op.legId == legId && Step(t, r).1.LegOut?
    ensures legId in Step(t, r).0.legs
    ensures InOrder(Step(t, r).0.legs[legId]) <==> t.legs[legId].reachedAt.Some?
  {
    if r.op.RecordPurchase? {
      var other := PurchaseEffect(t, legId, r.op.transaction, r.user, r.now);
    }
    InOrderCases(t.legs[legId]);
    InOrderCases(Step(t, r).0.legs[legId]);
  }

  /** If the request is an accepted recording, its leg had been reached. */
  ghost predicate ReachedIfRecorded(t: Tables, r: Request) {
    (r.op.RecordPurchase? || r.op.RecordSale?) && Step(t, r).1.LegOut? ==>
      r.op.legId in t.legs && t.legs[r.op.legId].reachedAt.Some?
  }

  ghost predicate AllReachedIfRecorded(t: Tables, requests: seq<Request>)
    decreases |requests|
  {
    requests != [] ==> ReachedIfRecorded(t, requests[0]) && AllReachedIfRecorded(Step(t, requests[0]).0, requests[1..])
  }

  lemma {:induction false} StepInOrderIffReached(t: Tables, r: Request)
    requires Valid(t) && AllInOrder(t)
    ensures AllInOrder(Step(t, r).0) <==> ReachedIfRecorded(t, r)
  {
    if ReachedIfRecorded(t, r) {
      if !Disciplined(t, r) {
        assert Step(t, r).0 == t;
      } else {
        OrderedStep(t, r);
      }
    } else {
      var legId := r.op.legId;
      AnyTypeCases(t.legs[legId]);
      RecordingKeepsOrderIffReached(t, r, legId);
      AnyTypeCases(Step(t, r).0.legs[legId]);
    }
  }

  /** The tables are in order at every point of a run. */
  ghost predicate InOrderThroughout(t: Tables, requests: seq<Request>)
    decreases |requests|
  {
    AllInOrder(t) && (requests != [] ==> InOrderThroughout(Step(t, requests[0]).0, requests[1..]))
  }

  /** Throughout means after every prefix. */
  lemma {:induction false} ThroughoutIsEveryPrefix(t: Tables, requests: seq<Request>)
    ensures InOrderThroughout(t, requests) <==> forall n :: 0 <= n <= |requests| ==> AllInOrder(After(t, requests[..n]))
    decreases |requests|
  {
    assert requests[..0] == [];
    if requests != [] {
      var t', rest := Step(t, requests[0]).0, requests[1..];
      ThroughoutIsEveryPrefix(t', rest);
      forall n | 1 <= n <= |requests| ensures After(t, requests[..n]) == After(t', rest[..n - 1]) {
        assert requests[..n][1..] == rest[..n - 1];
      }
      if forall n :: 0 <= n <= |requests| ==> AllInOrder(After(t, requests[..n])) {
        forall n | 0 <= n <= |rest| ensures AllInOrder(After(t', rest[..n])) {
          assert After(t, requests[..n + 1]) == After(t', rest[..n]);
        }
      }
    }
  }

  /** Over whole runs: in order at every point exactly when every accepted recording found its leg reached. */
  lemma {:induction false} InOrderThroughoutIffReached(t: Tables, requests: seq<Request>)
    requires Valid(t) && AllInOrder(t)
    ensures InOrderThroughout(t, requests) <==> AllReachedIfRecorded(t, requests)
    decreases |requests|
  {
    if requests != [] {
      StepKeepsValid(t, requests[0]);
      StepInOrderIffReached(t, requests[0]);
      if AllInOrder(Step(t, requests[0]).0) {
        InOrderThroughoutIffReached(Step(t, requests[0]).0, requests[1..]);
      }
    }
  }

  // ----- Two short histories from the start -----

  function Creation(route: Route, quantity: int, user: Id, now: Time): Request {
    Request(user, now, CreateRun(route, quantity, None, 0, 1, 2))
  }

  /** A run just created: its acquisition leg 1 and its sale leg 2, neither reached. */
  lemma CreatedRun(route: Route, quantity: int, user: Id, now: Time)
    ensures var t := Step(EMPTY, Creation(route, quantity, user, now)).0;
            && Valid(t) && HasLegs(t, 0, 1, 2) && t.runs.Keys == {0} && OwnsLeg(t, 1, user) && OwnsRun(t, 0, user)
            && t.runs[0].finalizedAt.None?
            && t.legs[1] == NewAcquisition(route, quantity, 0, user, now) && t.legs[2] == NewSale(route, quantity, 0, user)
  {
    StepKeepsValid(EMPTY, Creation(route, quantity, user, now));
  }

  /** Bought before it was ever reached, which the server accepts, the leg is out of order. */
  lemma UnreachedPurchaseIsOutOfOrder(route: Route, quantity: int, tx: Transaction, user: Id, now: Time)
    ensures var t := Step(EMPTY, Creation(route, quantity, user, now)).0;
            var (t', answer) := Step(t, Request(user, now, RecordPurchase(1, tx)));
            answer.LegOut? && 1 in t'.legs && !InOrder(t'.legs[1])
  {
    CreatedRun(route, quantity, user, now);
    var t := Step(EMPTY, Creation(route, quantity, user, now)).0;
    var other := PurchaseEffect(t, 1, tx, user, now);
    InOrderCases(t.legs[1]);
    RecordingKeepsOrderIffReached(t, Request(user, now, RecordPurchase(1, tx)), 1);
  }

  /** Bought, written off, and then finalized once more: the run's finalization time moves. */
  lemma FinalizedTwice(route: Route, quantity: int, tx: Transaction, user: Id, now: Time, later: Time)
    requires later != now
    ensures var t := After(EMPTY, [Creation(route, quantity, user, now), Request(user, now, RecordPurchase(1, tx)),
                                   Request(user, now, WriteOffRun(0))]);
            && RunFrozen(t, 0) && t.runs[0].finalizedAt == Some(now)
            && 0 in Step(t, Request(user, later, FinalizeRun(0))).0.runs
            && Step(t, Request(user, later, FinalizeRun(0))).0.runs[0].finalizedAt == Some(later)
  {
    var r1, r2, r3 := Creation(route, quantity, user, now), Request(user, now, RecordPurchase(1, tx)), Request(user, now, WriteOffRun(0));
    CreatedRun(route, quantity, user, now);
    var t1 := Step(EMPTY, r1).0;
    var other := PurchaseEffect(t1, 1, tx, user, now);
    StepKeepsValid(t1, r2);
    var t2 := Step(t1, r2).0;
    var a, s := WriteOffEffect(t2, 0, user, now);
    assert IsTypedLegOf(t2, 0, Acquisition, 1) && IsTypedLegOf(t2, 0, Sale, 2);
    StepKeepsValid(t2, r3);
    var t3 := Step(t2, r3).0;
    assert [r1, r2, r3][1..] == [r2, r3] && [r2, r3][1..] == [r3] && [r3][1..] == [];
    assert After(t2, [r3]) == After(t3, []);
    assert After(t1, [r2, r3]) == After(t2, [r3]);
    RestampedIffFinalizedAgain(t3, Request(user, later, FinalizeRun(0)), 0);
  }
}
