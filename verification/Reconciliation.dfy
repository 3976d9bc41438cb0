/**
 The position book against the ledger: whether each open position is what its
 deal's filled purchase says. Fills are booked as often as they are reported,
 and a rejection does not look at the book (src/trading/executor.py:128-196).
 */
module Reconciliation {
  import opened Common
  import opened BracketBuilder
  import opened DecisionEngine
  import opened PositionBook
  import opened TradeLedger
  import opened Safeguards
  import opened TradingCycle
  import opened TradingRuns

  predicate FilledPurchase(row: Trade) {
    row.status == Filled && row.side == Buy
  }

  /** The position is the one that the row's fill alone opens. */
  predicate Backs(row: Trade, position: Option<Position>) {
    && row.filledPrice.Some? && row.filledQuantity.Some?
    && var fill := FillOf(row, row.filledPrice.value, row.filledQuantity.value);
       FillEur(fill) > 0.0 && position == Some(NewRow(fill))
  }

  ghost predicate HasPurchase(trades: map<string, Trade>, deal: int) {
    exists id :: id in trades && FilledPurchase(trades[id]) && trades[id].dealId == deal
  }

  /** Every filled purchase has its position, and every open position its filled purchase. */
  ghost predicate Reconciled(l: Ledger) {
    && (forall id :: id in l.trades && FilledPurchase(l.trades[id]) ==>
        Backs(l.trades[id], OpenOf(l.positions, l.trades[id].dealId)))
    && (forall deal :: OpenOf(l.positions, deal).Some? ==> HasPurchase(l.trades, deal))
  }

  /** A fill booked on a deal that has a position already, or the rejection of a filled purchase. */
  predicate Breaks(l: Ledger, e: Event) {
    match e
    case Submit(_, _, _) => false
    case Fill(id, price, qty) =>
      && id in l.trades && OpenOf(l.positions, l.trades[id].dealId).Some?
      && ApplyFill(l.positions, FillOf(l.trades[id], price, qty)).Ok?
    case Reject(id, _) => id in l.trades && FilledPurchase(l.trades[id])
  }

  /** The filled purchases of two ledgers are the same rows. */
  ghost predicate SamePurchases(a: map<string, Trade>, b: map<string, Trade>) {
    && (forall id :: id in a && FilledPurchase(a[id]) ==> id in b && b[id] == a[id])
    && (forall id :: id in b && FilledPurchase(b[id]) ==> id in a && a[id] == b[id])
  }

  lemma SamePurchasesReconciled(l: Ledger, l': Ledger)
    requires Reconciled(l) && l'.positions == l.positions && SamePurchases(l.trades, l'.trades)
    ensures Reconciled(l')
  {
    hide Backs, FilledPurchase;
    forall deal | OpenOf(l.positions, deal).Some? ensures HasPurchase(l'.trades, deal) {
      var id :| id in l.trades && FilledPurchase(l.trades[id]) && l.trades[id].dealId == deal;
      assert id in l'.trades && l'.trades[id] == l.trades[id];
    }
  }

  lemma PutNoPurchase(trades: map<string, Trade>, id: string, row: Trade)
    requires !FilledPurchase(row) && (id in trades ==> !FilledPurchase(trades[id]))
    ensures SamePurchases(trades, trades[id := row])
  {
    hide FilledPurchase;
  }

  /** A submit touches no filled row and makes none. */
  lemma SubmitKeepsReconciled(l: Ledger, request: TradeRequest, approved: bool, broker: BrokerReply)
    requires Reconciled(l)
    ensures Reconciled(SubmitStep(l, request, approved, broker).0)
  {
    var l' := SubmitStep(l, request, approved, broker).0;
    SubmitKeepsPositions(l, request, approved, broker);
    SubmitWritesNoFill(l, request, approved, broker);
    hide SubmitStep, Reconciled, SamePurchases;
    SamePurchasesReconciled(l, l');
  }

  lemma SubmitWritesNoFill(l: Ledger, request: TradeRequest, approved: bool, broker: BrokerReply)
    ensures SamePurchases(l.trades, SubmitStep(l, request, approved, broker).0.trades)
  {
    hide RequestBracket, Label, HasOpenTrade, EffectivelyApproved, Qualifies, SamePurchases;
    var l' := SubmitStep(l, request, approved, broker).0;
    if l'.trades == l.trades {
      NoNewPurchases(l.trades);
    } else {
      PutNoPurchase(l.trades, request.tradeId, l'.trades[request.tradeId]);
    }
  }

  lemma NoNewPurchases(trades: map<string, Trade>)
    ensures SamePurchases(trades, trades)
  {
  }

  /** The first purchase of a deal opens the position it backs. */
  lemma FirstPurchaseReconciled(l: Ledger, id: string, price: real, qty: int)
    requires Reconciled(l) && id in l.trades && l.trades[id].side == Buy
    requires OpenOf(l.positions, l.trades[id].dealId).None?
        && ApplyFill(l.positions, FillOf(l.trades[id], price, qty)).Ok?
    ensures Reconciled(FillStep(l, id, price, qty))
  {
    hide OpenOf, Averaged, FillEur, NewRow;
    var l', deal, fill := FillStep(l, id, price, qty), l.trades[id].dealId, FillOf(l.trades[id], price, qty);
    FillFacts(l.positions, fill, deal);
    assert Backs(l'.trades[id], OpenOf(l'.positions, deal));
    forall other | other in l'.trades && FilledPurchase(l'.trades[other]) && other != id
      ensures Backs(l'.trades[other], OpenOf(l'.positions, l'.trades[other].dealId))
    {
      FillFacts(l.positions, fill, l'.trades[other].dealId);
      assert Backs(l.trades[other], OpenOf(l.positions, l.trades[other].dealId));
    }
    forall d | OpenOf(l'.positions, d).Some? ensures HasPurchase(l'.trades, d) {
      if d != deal {
        FillFacts(l.positions, fill, d);
        var other :| other in l.trades && FilledPurchase(l.trades[other]) && l.trades[other].dealId == d;
        assert other in l'.trades && l'.trades[other] == l.trades[other];
      } else {
        assert FilledPurchase(l'.trades[id]);
      }
    }
  }

  /** A second purchase on the same position adds to it, so its row no longer accounts for it alone. */
  lemma MorePurchasesBreak(l: Ledger, id: string, price: real, qty: int)
    requires Reconciled(l) && id in l.trades && l.trades[id].side == Buy
    requires OpenOf(l.positions, l.trades[id].dealId).Some?
        && ApplyFill(l.positions, FillOf(l.trades[id], price, qty)).Ok?
    ensures !Reconciled(FillStep(l, id, price, qty))
  {
    var l', deal, fill := FillStep(l, id, price, qty), l.trades[id].dealId, FillOf(l.trades[id], price, qty);
    var other :| other in l.trades && FilledPurchase(l.trades[other]) && l.trades[other].dealId == deal;
    assert Backs(l.trades[other], OpenOf(l.positions, deal));
    FillFacts(l.positions, fill, deal);
    assert OpenOf(l'.positions, deal).value.sizeEur > FillEur(fill);
    assert FilledPurchase(l'.trades[id]) && !Backs(l'.trades[id], OpenOf(l'.positions, deal));
  }

  /** A sale closes the position that a filled purchase still stands for. */
  lemma SaleBreaks(l: Ledger, id: string, price: real, qty: int)
    requires Reconciled(l) && OneOpenPerDeal(l.positions) && id in l.trades && l.trades[id].side == Sell
    requires OpenOf(l.positions, l.trades[id].dealId).Some?
    ensures !Reconciled(FillStep(l, id, price, qty))
  {
    var l', deal, fill := FillStep(l, id, price, qty), l.trades[id].dealId, FillOf(l.trades[id], price, qty);
    SaleCloses(l.positions, fill);
    var other :| other in l.trades && FilledPurchase(l.trades[other]) && l.trades[other].dealId == deal;
    assert other != id && l'.trades[other] == l.trades[other];
    assert !Backs(l'.trades[other], OpenOf(l'.positions, deal));
  }

  lemma SaleCloses(positions: seq<Position>, fill: PositionBook.Fill)
    requires OneOpenPerDeal(positions) && fill.side == Sell && OpenOf(positions, fill.dealId).Some?
    ensures ApplyFill(positions, fill).Ok? && OpenOf(After(positions, fill), fill.dealId).None?
  {
    hide RealisedPnl;
    var found := OpenOf(positions, fill.dealId).value;
    OpenOfIffCounted(positions, fill.dealId);
    RewriteFacts(positions, fill.dealId, ClosedBy(found, fill), fill.dealId);
    assert DealOpenCount(positions, fill.dealId) <= 1;
    OpenOfIffCounted(After(positions, fill), fill.dealId);
  }

  lemma IdleSaleReconciled(l: Ledger, id: string, price: real, qty: int)
    requires Reconciled(l) && id in l.trades && l.trades[id].side == Sell
        && OpenOf(l.positions, l.trades[id].dealId).None?
    ensures Reconciled(FillStep(l, id, price, qty))
  {
    hide Reconciled, SamePurchases;
    var l' := FillStep(l, id, price, qty);
    PutNoPurchase(l.trades, id, l'.trades[id]);
    SamePurchasesReconciled(l, l');
  }

  lemma FillReconciledIff(l: Ledger, id: string, price: real, qty: int)
    requires Reconciled(l) && OneOpenPerDeal(l.positions)
    ensures Reconciled(FillStep(l, id, price, qty)) <==> !Breaks(l, Event.Fill(id, price, qty))
  {
    hide Reconciled, OneOpenPerDeal, OpenOf, FillEur, Averaged;
    if id in l.trades && ApplyFill(l.positions, FillOf(l.trades[id], price, qty)).Ok? {
      var found := OpenOf(l.positions, l.trades[id].dealId);
      if l.trades[id].side == Buy && found.None? {
        FirstPurchaseReconciled(l, id, price, qty);
      } else if l.trades[id].side == Buy {
        MorePurchasesBreak(l, id, price, qty);
      } else if found.Some? {
        SaleBreaks(l, id, price, qty);
      } else {
        IdleSaleReconciled(l, id, price, qty);
      }
    }
  }

  lemma RejectReconciledIff(l: Ledger, id: string, reason: string)
    requires Reconciled(l) && OneOpenTradePerDeal(l)
    ensures Reconciled(RejectStep(l, id, reason)) <==> !Breaks(l, Event.Reject(id, reason))
  {
    if id in l.trades {
      var l', deal := RejectStep(l, id, reason), l.trades[id].dealId;
      if FilledPurchase(l.trades[id]) {
        assert Backs(l.trades[id], OpenOf(l.positions, deal));
        forall other | other in l'.trades
          ensures !(FilledPurchase(l'.trades[other]) && l'.trades[other].dealId == deal)
        {
          assert !OtherOpenTrade(l, id, deal);
        }
        assert !HasPurchase(l'.trades, deal);
      } else {
        hide Reconciled, SamePurchases;
        PutNoPurchase(l.trades, id, l'.trades[id]);
        SamePurchasesReconciled(l, l');
      }
    }
  }

  /**
   A call keeps book and ledger reconciled if and only if it neither books a
   fill on a deal that has a position already nor rejects a filled purchase.
   */
  lemma ReconciledKeptIff(l: Ledger, e: Event)
    requires Reconciled(l) && OneOpenTradePerDeal(l) && OneOpenPerDeal(l.positions)
    ensures Reconciled(Step(l, e)) <==> !Breaks(l, e)
  {
    hide Reconciled, OneOpenTradePerDeal, OneOpenPerDeal, SubmitStep, FillStep, RejectStep;
    match e
    case Submit(request, approved, broker) => SubmitKeepsReconciled(l, request, approved, broker);
    case Fill(id, price, qty) => FillReconciledIff(l, id, price, qty);
    case Reject(id, reason) => RejectReconciledIff(l, id, reason);
  }

  // ----- whole runs

  /** Fills are reported for submitted trades, and filled trades are not rejected. */
  predicate ReportsInOrder(l: Ledger, e: Event) {
    match e
    case Submit(_, _, _) => true
    case Fill(id, _, _) => id in l.trades ==> l.trades[id].status == Submitted
    case Reject(id, _) => id in l.trades ==> l.trades[id].status != Filled
  }

  /** While a trade of a deal is submitted its deal has no position yet. */
  lemma SubmittedHasNoPosition(l: Ledger, id: string)
    requires Reconciled(l) && OneOpenTradePerDeal(l) && id in l.trades && l.trades[id].status == Submitted
    ensures OpenOf(l.positions, l.trades[id].dealId).None?
  {
    hide Backs, OpenOf;
    var deal := l.trades[id].dealId;
    forall other | other in l.trades ensures !(FilledPurchase(l.trades[other]) && l.trades[other].dealId == deal) {
      assert !OtherOpenTrade(l, id, deal);
    }
    assert !HasPurchase(l.trades, deal);
  }

  lemma InOrderNeverBreaks(l: Ledger, e: Event)
    requires Reconciled(l) && OneOpenTradePerDeal(l) && ReportsInOrder(l, e)
    ensures !Breaks(l, e)
  {
    hide ApplyFill, Reconciled, OneOpenTradePerDeal, OpenOf;
    if e.Fill? && e.tradeId in l.trades {
      SubmittedHasNoPosition(l, e.tradeId);
    }
  }

  /** Positions are added, open, and none is averaged or closed. */
  ghost predicate OnlyOpened(before: seq<Position>, after: seq<Position>) {
    before <= after && forall i :: |before| <= i < |after| ==> after[i].status == Open
  }

  lemma UnbrokenOnlyOpens(l: Ledger, e: Event)
    requires !Breaks(l, e)
    ensures OnlyOpened(l.positions, Step(l, e).positions)
  {
    hide SubmitStep, FillEur, Averaged, OpenOf;
    if e.Submit? {
      SubmitKeepsPositions(l, e.request, e.approved, e.broker);
    }
  }

  lemma OnlyOpenedTransitive(a: seq<Position>, b: seq<Position>, c: seq<Position>)
    requires OnlyOpened(a, b) && OnlyOpened(b, c)
    ensures OnlyOpened(a, c)
  {
  }

  /** What a run keeps about book and ledger together. */
  ghost predicate InStep(l: Ledger) {
    Reconciled(l) && OneOpenTradePerDeal(l) && OneOpenPerDeal(l.positions)
  }

  lemma CallKeepsInStep(l: Ledger, e: Event)
    requires InStep(l) && ReportsInOrder(l, e) && !Collides(l, e)
    ensures InStep(Step(l, e)) && OnlyOpened(l.positions, Step(l, e).positions)
  {
    hide Reconciled, OneOpenTradePerDeal, OneOpenPerDeal, Step, ReportsInOrder, Collides, OnlyOpened, Breaks;
    InOrderNeverBreaks(l, e);
    ReconciledKeptIff(l, e);
    OneOpenTradeKeptIff(l, e);
    UnbrokenOnlyOpens(l, e);
    RunOne(l, e);
    OneOpenPositionAlways(l, [e]);
  }

  /** A cycle's submits are calls of this kind, their ids being fresh. */
  lemma SlotKeepsInStep(ctx: Context, slot: Slot, p: Progress)
    requires InStep(p.ledger) && slot.tradeId !in p.ledger.trades
    ensures InStep(HandleSlot(ctx, slot, p).ledger)
    ensures OnlyOpened(p.ledger.positions, HandleSlot(ctx, slot, p).ledger.positions)
    ensures forall id :: id in HandleSlot(ctx, slot, p).ledger.trades ==> id in p.ledger.trades || id == slot.tradeId
  {
    hide EvaluateCandidate, InStep, SubmitStep, CooldownActive;
    var d := Decision(ctx, slot, p.openPositions);
    if d.Some? {
      CarriesItsId(ctx, slot, p.openPositions);
      var call := Submit(d.value, false, slot.broker);
      DisciplinedNeverCollides(p.ledger, call);
      CallKeepsInStep(p.ledger, call);
      SubmitAddsItsRow(p.ledger, d.value, slot.broker);
    }
  }

  lemma {:induction false} LoopKeepsInStep(ctx: Context, slots: seq<Slot>, p: Progress)
    requires InStep(p.ledger) && FreshIds(slots, p.ledger.trades)
    ensures InStep(HandleAll(ctx, slots, p).ledger)
    ensures OnlyOpened(p.ledger.positions, HandleAll(ctx, slots, p).ledger.positions)
  {
    hide HandleSlot, InStep, OnlyOpened;
    NothingOpened(p.ledger.positions);
    if slots != [] && !p.raised {
      var q := HandleSlot(ctx, slots[0], p);
      SlotKeepsInStep(ctx, slots[0], p);
      LoopKeepsInStep(ctx, slots[1..], q);
      OnlyOpenedTransitive(p.ledger.positions, q.ledger.positions, HandleAll(ctx, slots, p).ledger.positions);
    }
  }

  lemma NothingOpened(positions: seq<Position>)
    ensures OnlyOpened(positions, positions)
  {
  }

  /** No clash of ids or approvals, and reports in order. */
  ghost predicate OrderlyAct(w: World, a: Act) {
    && TradingRuns.NoClash(w, a)
    && match a
       case ReportFill(id, price, qty) => ReportsInOrder(w.ledger, Event.Fill(id, price, qty))
       case ReportReject(id, reason) => ReportsInOrder(w.ledger, Event.Reject(id, reason))
       case _ => true
  }

  ghost predicate OrderlyRun(settings: Settings, w: World, acts: seq<Act>) {
    acts != [] ==>
      var front := acts[..|acts| - 1];
      OrderlyRun(settings, w, front) && OrderlyAct(WorldAfter(settings, w, front), acts[|acts| - 1])
  }

  lemma ActKeepsInStep(settings: Settings, w: World, a: Act)
    requires InStep(w.ledger) && OrderlyAct(w, a)
    ensures InStep(Apply(settings, w, a).ledger)
    ensures OnlyOpened(w.ledger.positions, Apply(settings, w, a).ledger.positions)
  {
    hide HandleAll, LossHalts, SubmitStep, FillStep, RejectStep, Collides, InStep, ReportsInOrder, OnlyOpened;
    NothingOpened(w.ledger.positions);
    match a
    case Cycle(c) => LoopKeepsInStep(ContextOf(settings, w, c), c.slots, Start(w));
    case Approve(request, broker) => ApprovalKeepsInStep(w.ledger, request, broker);
    case ReportFill(id, price, qty) => CallKeepsInStep(w.ledger, Event.Fill(id, price, qty));
    case ReportReject(id, reason) => RejectKeepsInStep(w.ledger, id, reason);
    case _ =>
  }

  lemma ApprovalKeepsInStep(l: Ledger, request: TradeRequest, broker: BrokerReply)
    requires InStep(l) && !Collides(l, Submit(request, true, broker))
    ensures InStep(SubmitStep(l, request, true, broker).0)
    ensures OnlyOpened(l.positions, SubmitStep(l, request, true, broker).0.positions)
  {
    hide InStep, Collides, SubmitStep, OnlyOpened;
    CallKeepsInStep(l, Submit(request, true, broker));
  }

  lemma RejectKeepsInStep(l: Ledger, id: string, reason: string)
    requires InStep(l) && ReportsInOrder(l, Event.Reject(id, reason))
    ensures InStep(RejectStep(l, id, reason)) && OnlyOpened(l.positions, RejectStep(l, id, reason).positions)
  {
    hide InStep, ReportsInOrder, RejectStep, OnlyOpened;
    CallKeepsInStep(l, Event.Reject(id, reason));
  }

  /**
   In every orderly run of the whole system the open position of a deal is its
   one filled purchase, at that fill's price and for its euros, and every filled
   purchase has its position. No position is averaged or closed: while a deal's
   purchase is filled, the duplicate test turns every new order for it away.
   */
  lemma {:induction false} ReconciledInEveryRun(settings: Settings, w: World, acts: seq<Act>)
    requires InStep(w.ledger) && OrderlyRun(settings, w, acts)
    ensures InStep(WorldAfter(settings, w, acts).ledger)
    ensures OnlyOpened(w.ledger.positions, WorldAfter(settings, w, acts).ledger.positions)
  {
    hide Apply, OrderlyAct, InStep, OnlyOpened;
    NothingOpened(w.ledger.positions);
    if acts != [] {
      var middle := WorldAfter(settings, w, acts[..|acts| - 1]);
      ReconciledInEveryRun(settings, w, acts[..|acts| - 1]);
      ActKeepsInStep(settings, middle, acts[|acts| - 1]);
      OnlyOpenedTransitive(w.ledger.positions, middle.ledger.positions, WorldAfter(settings, w, acts).ledger.positions);
    }
  }

  /** A fill reported twice is booked twice, and a rejection leaves the position it should have undone. */
  lemma ReportedTwice(l: Ledger, id: string, price: real, qty: int, reason: string)
    requires Reconciled(l) && id in l.trades && l.trades[id].side == Buy && price * qty as real > 0.0
    requires OpenOf(l.positions, l.trades[id].dealId).None?
    ensures
      var deal, once := l.trades[id].dealId, FillStep(l, id, price, qty);
      var twice, rejected := FillStep(once, id, price, qty), RejectStep(once, id, reason);
      && OpenOf(once.positions, deal).Some? && OpenOf(twice.positions, deal).Some?
      && OpenOf(twice.positions, deal).value.sizeEur == 2.0 * OpenOf(once.positions, deal).value.sizeEur
      && rejected.trades[id].status == Rejected && rejected.positions == once.positions
  {
    hide OpenOf;
    var fill, once := FillOf(l.trades[id], price, qty), FillStep(l, id, price, qty);
    FillFacts(l.positions, fill, fill.dealId);
    assert FillOf(once.trades[id], price, qty) == fill;
    FillFacts(once.positions, fill, fill.dealId);
  }
}
