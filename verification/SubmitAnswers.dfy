/**
 What each call to the executor answers and writes, told from guards that its
 caller can check (src/trading/executor.py:57-149).
 */
module SubmitAnswers {
  import opened Common
  import opened BracketBuilder
  import opened DecisionEngine
  import opened PositionBook
  import opened TradeLedger

  // ----- submit

  /** Another order of the deal is submitted or filled. */
  ghost predicate DealTaken(trades: map<string, Trade>, deal: int) {
    exists id :: id in trades && trades[id].dealId == deal
        && (trades[id].status == Submitted || trades[id].status == Filled)
  }

  /** The request names a listing, or else an ISIN, and the broker knows the contract. */
  predicate Found(request: TradeRequest, broker: BrokerReply) {
    var named := request.symbol.Some? && request.symbol.value != "" && request.exchange.Some?
        && request.exchange.value != "";
    var numbered := request.isin.Some? && request.isin.value != "";
    (named || numbered) && broker.qualified
  }

  /** The call goes on to a row: a pending one, or a new one with a quantity for a deal that is free. */
  ghost predicate Considered(l: Ledger, request: TradeRequest) {
    if request.tradeId in l.trades then l.trades[request.tradeId].status == Pending
    else request.quantity > 0 && !DealTaken(l.trades, request.dealId)
  }

  /** A new row copies the request; a row that is there keeps its contents. */
  predicate RowStands(l: Ledger, request: TradeRequest, row: Trade) {
    if request.tradeId in l.trades then
      row == l.trades[request.tradeId].(approved := row.approved, status := row.status,
                                        rejectionReason := row.rejectionReason,
                                        ibkrOrderId := row.ibkrOrderId, ibkrStopOrderId := row.ibkrStopOrderId)
    else
      && row.tradeId == request.tradeId && row.dealId == request.dealId && row.side == request.side
      && row.quantity == request.quantity && row.limitPrice == request.limitPrice
      && row.stopLossPrice == request.stopLossPrice && row.takeProfitPrice == request.takeProfitPrice
      && row.requiresApproval == request.requiresApproval
      && row.filledPrice.None? && row.filledQuantity.None? && row.pnlRealized.None?
  }

  /** A call that does not get that far changes nothing. */
  lemma UnconsideredSubmit(l: Ledger, request: TradeRequest, approved: bool, broker: BrokerReply)
    requires !Considered(l, request)
    ensures
      var (l', outcome) := SubmitStep(l, request, approved, broker);
      && l' == l
      && (outcome.Recorded? <==> request.tradeId in l.trades)
      && (outcome.Recorded? ==> outcome.trade == l.trades[request.tradeId])
      && (outcome.DuplicateSkipped? <==> request.tradeId !in l.trades && DealTaken(l.trades, request.dealId))
      && (outcome.RowRefused? <==> request.tradeId !in l.trades && !DealTaken(l.trades, request.dealId))
  {
    hide RequestBracket, Label, Qualifies;
    TakenIs(l.trades, request.dealId);
  }

  lemma TakenIs(trades: map<string, Trade>, deal: int)
    ensures HasOpenTrade(trades, deal) <==> DealTaken(trades, deal)
  {
  }

  /**
   The answer to a call that is considered. Not approved where approval is
   needed, the row waits. Approved but not found, it is rejected for good as an
   unresolved ticker. Approved and found, it is submitted with its bracket, or
   the bracket is refused and the row stays pending.
   */
  lemma SubmitAnswer(l: Ledger, request: TradeRequest, approved: bool, broker: BrokerReply)
    requires Considered(l, request)
    ensures
      var (l', outcome) := SubmitStep(l, request, approved, broker);
      var id, ready, found := request.tradeId, approved || !request.requiresApproval, Found(request, broker);
      var bracket := RequestBracket(request, broker.baseOrderId);
      && id in l'.trades && l'.trades == l.trades[id := l'.trades[id]] && l'.positions == l.positions
      && RowStands(l, request, l'.trades[id])
      && (l'.trades[id].approved <==> ready)
      && (l'.trades[id].status == Rejected <==> ready && !found)
      && (l'.trades[id].status == Submitted <==> ready && found && bracket.Ok?)
      && (l'.trades[id].status == Pending <==> !ready || (found && bracket.Err?))
      && (ready && !found ==> l'.trades[id].rejectionReason == Some("ticker_unresolved"))
      && (outcome == if ready && found && bracket.Err? then BracketRefused(bracket.error) else Recorded(l'.trades[id]))
      && (l'.trades[id].status != Submitted ==> l'.placed == l.placed)
      && (l'.trades[id].status == Submitted ==>
          |l'.placed| == |l.placed| + |bracket.value| && l.placed <= l'.placed
          && forall i :: 0 <= i < |bracket.value| ==> l'.placed[|l.placed| + i] == PlacedOrder(id, bracket.value[i]))
  {
    hide RequestBracket, HasOpenTrade;
    TakenIs(l.trades, request.dealId);
  }

  /** Once a row is no longer pending, no later call sends anything for it: a rejected id is never sent an order. */
  lemma {:induction false} TerminalNeverSent(l: Ledger, events: seq<Event>, id: string)
    requires id in l.trades && l.trades[id].status != Pending
    ensures OrdersOf(Run(l, events).placed, id) == OrdersOf(l.placed, id)
    ensures id in Run(l, events).trades && Run(l, events).trades[id].status != Pending
  {
    hide Step, OrdersOf;
    if events != [] {
      var middle, e := Run(l, events[..|events| - 1]), events[|events| - 1];
      TerminalNeverSent(l, events[..|events| - 1], id);
      TerminalNotSent(middle, e, id);
      assert Run(l, events) == Step(middle, e);
    }
  }

  /** So a request whose ticker is not found is never sent an order, whatever calls follow. */
  lemma UnresolvedNeverSent(l: Ledger, request: TradeRequest, approved: bool, broker: BrokerReply, events: seq<Event>)
    requires AtMostOneBracket(l) && Considered(l, request)
    requires (approved || !request.requiresApproval) && !Found(request, broker)
    ensures OrdersOf(Run(SubmitStep(l, request, approved, broker).0, events).placed, request.tradeId) == []
  {
    var l' := SubmitStep(l, request, approved, broker).0;
    SubmitAnswer(l, request, approved, broker);
    assert OrdersOf(l.placed, request.tradeId) == [];
    hide SubmitStep, AtMostOneBracket, Considered, OrdersOf, Run;
    TerminalNeverSent(l', events, request.tradeId);
  }

  lemma TerminalNotSent(l: Ledger, e: Event, id: string)
    requires id in l.trades && l.trades[id].status != Pending
    ensures OrdersOf(Step(l, e).placed, id) == OrdersOf(l.placed, id)
    ensures id in Step(l, e).trades && Step(l, e).trades[id].status != Pending
  {
    hide Step, Places, RequestBracket, OrdersOf, Label;
    StepSends(l, e);
    if e.Submit? && Places(l, e.request, e.approved, e.broker) {
      PlacesAccepted(l, e.request, e.approved, e.broker);
      OrdersOfLabelled(l.placed, e.request.tradeId, RequestBracket(e.request, e.broker.baseOrderId).value, id);
    }
  }

  // ----- fills and rejections

  /** The P&L of a sale in euros alone: what the position cost, scaled from its entry to the exit price. */
  predicate IsEuroPnl(position: Position, exit: real, pnl: real) {
    (pnl + position.sizeEur) * position.entryPrice == exit * position.sizeEur
  }

  lemma EuroPnl(position: Position, exit: real)
    requires position.entryPrice > 0.0
    ensures RealisedPnl(position, exit).Some? && IsEuroPnl(position, exit, RealisedPnl(position, exit).value)
  {
    var ratio := exit / position.entryPrice;
    assert ratio * position.entryPrice == exit;
    assert RealisedPnl(position, exit).value + position.sizeEur == ratio * position.sizeEur;
    assert ratio * position.sizeEur * position.entryPrice == (ratio * position.entryPrice) * position.sizeEur;
  }

  /** What the table refuses: a purchase that leaves its deal's position without a positive size. */
  lemma FillRefusedIff(positions: seq<Position>, fill: PositionBook.Fill)
    ensures
      var held := OpenOf(positions, fill.dealId);
      ApplyFill(positions, fill).Err? <==>
      fill.side == Buy && (if held.Some? then held.value.sizeEur else 0.0) + fill.price * fill.qty as real <= 0.0
  {
    hide OpenOf;
  }

  /**
   A fill that is booked marks its row filled with the price and quantity
   reported, and a sale that closes a position records its P&L there; a fill
   that is refused changes nothing.
   */
  lemma FillAnswer(l: Ledger, id: string, price: real, qty: int)
    requires id in l.trades
    ensures
      var l', row, held := FillStep(l, id, price, qty), l.trades[id], OpenOf(l.positions, l.trades[id].dealId);
      var refused := row.side == Buy && (if held.Some? then held.value.sizeEur else 0.0) + price * qty as real <= 0.0;
      && (refused ==> l' == l)
      && (!refused ==>
          && id in l'.trades && l'.trades == l.trades[id := l'.trades[id]] && l'.placed == l.placed
          && l'.trades[id] == row.(status := Filled, filledPrice := Some(price), filledQuantity := Some(qty),
                                   pnlRealized := l'.trades[id].pnlRealized)
          && (if row.side == Sell && held.Some? && held.value.entryPrice > 0.0
              then l'.trades[id].pnlRealized.Some? && IsEuroPnl(held.value, price, l'.trades[id].pnlRealized.value)
              else l'.trades[id].pnlRealized == row.pnlRealized))
  {
    hide OpenOf, Averaged, IsEuroPnl;
    var held := OpenOf(l.positions, l.trades[id].dealId);
    FillRefusedIff(l.positions, FillOf(l.trades[id], price, qty));
    if held.Some? && held.value.entryPrice > 0.0 {
      EuroPnl(held.value, price);
    }
    hide RealisedPnl;
    PnlOnlyWithEntry(l.positions, FillOf(l.trades[id], price, qty));
  }

  lemma PnlOnlyWithEntry(positions: seq<Position>, fill: PositionBook.Fill)
    ensures
      var held, r := OpenOf(positions, fill.dealId), ApplyFill(positions, fill);
      r.Ok? ==>
        r.value.pnl == if fill.side == Sell && held.Some? && held.value.entryPrice > 0.0
                       then RealisedPnl(held.value, fill.price) else None
  {
    hide OpenOf, Averaged;
  }

  /** A rejection rewrites one row, and of it only the status and the reason. */
  lemma RejectAnswer(l: Ledger, id: string, reason: string)
    requires id in l.trades
    ensures
      var l' := RejectStep(l, id, reason);
      && id in l'.trades && l' == l.(trades := l.trades[id := l'.trades[id]])
      && l'.trades[id].status == Rejected && l'.trades[id].rejectionReason == Some(reason)
      && l'.trades[id].(status := l.trades[id].status, rejectionReason := l.trades[id].rejectionReason) == l.trades[id]
  {
  }
}
