/**
 The trade ledger, the order log and the position book as one value, and what
 each executor call does to them (src/trading/executor.py).
 */
module TradeLedger {
  import opened Common
  import opened BracketBuilder
  import opened DecisionEngine
  import opened PositionBook

  datatype TradeStatus = Pending | Submitted | Filled | Rejected | Cancelled

  datatype Trade = Trade(
    tradeId: string, dealId: int, side: Action, quantity: int,
    limitPrice: real, stopLossPrice: real, takeProfitPrice: Option<real>,
    status: TradeStatus, requiresApproval: bool, approved: bool,
    ibkrOrderId: Option<int>, ibkrStopOrderId: Option<int>,
    filledPrice: Option<real>, filledQuantity: Option<int>,
    pnlRealized: Option<real>, rejectionReason: Option<string>)

  /** One order handed to the broker, labelled with the request that placed it. */
  datatype PlacedOrder = PlacedOrder(tradeId: string, leg: BracketLeg)

  datatype Ledger = Ledger(trades: map<string, Trade>, positions: seq<Position>, placed: seq<PlacedOrder>)

  const EMPTY_LEDGER := Ledger(map[], [], [])

  /** What the broker answers: whether it knows the contract, and the next order id. */
  datatype BrokerReply = BrokerReply(qualified: bool, baseOrderId: int)

  /** The last two raise: the trades table refuses a row without a quantity, or the bracket is refused. */
  datatype SubmitOutcome = Recorded(trade: Trade) | DuplicateSkipped | RowRefused | BracketRefused(error: BracketError)

  predicate IsTerminal(status: TradeStatus) {
    status != Pending
  }

  predicate IsOpen(status: TradeStatus) {
    status == Submitted || status == Filled
  }

  predicate HasOpenTrade(trades: map<string, Trade>, deal: int) {
    exists id | id in trades :: trades[id].dealId == deal && IsOpen(trades[id].status)
  }

  predicate Present(s: Option<string>) {
    s.Some? && s.value != ""
  }

  /** A contract is looked up by symbol and exchange, or else by ISIN, or not at all. */
  predicate Qualifies(request: TradeRequest, broker: BrokerReply) {
    ((Present(request.symbol) && Present(request.exchange)) || Present(request.isin)) && broker.qualified
  }

  function NewTrade(request: TradeRequest): Trade {
    Trade(request.tradeId, request.dealId, request.side, request.quantity, request.limitPrice, request.stopLossPrice,
          request.takeProfitPrice, Pending, request.requiresApproval, false, None, None, None, None, None, None)
  }

  predicate EffectivelyApproved(request: TradeRequest, approved: bool) {
    approved || !request.requiresApproval
  }

  function RowFor(l: Ledger, request: TradeRequest, approved: bool): Trade {
    (if request.tradeId in l.trades then l.trades[request.tradeId] else NewTrade(request))
    .(approved := EffectivelyApproved(request, approved))
  }

  function Label(tradeId: string, legs: seq<BracketLeg>): (placed: seq<PlacedOrder>)
    ensures |placed| == |legs|
  {
    seq(|legs|, i requires 0 <= i < |legs| => PlacedOrder(tradeId, legs[i]))
  }

  /** True when a submit call sends a bracket to the broker. */
  predicate Places(l: Ledger, request: TradeRequest, approved: bool, broker: BrokerReply) {
    && (if request.tradeId in l.trades then !IsTerminal(l.trades[request.tradeId].status)
        else !HasOpenTrade(l.trades, request.dealId) && request.quantity > 0)
    && EffectivelyApproved(request, approved)
    && Qualifies(request, broker)
    && RequestBracket(request, broker.baseOrderId).Ok?
  }

  function SubmitStep(l: Ledger, request: TradeRequest, approved: bool, broker: BrokerReply): (Ledger, SubmitOutcome) {
    var id := request.tradeId;
    if id in l.trades && IsTerminal(l.trades[id].status) then (l, Recorded(l.trades[id]))
    else if id !in l.trades && HasOpenTrade(l.trades, request.dealId) then (l, DuplicateSkipped)
    // whichever way the call goes on, the new row is refused when it is flushed
    else if id !in l.trades && request.quantity <= 0 then (l, RowRefused)
    else
      var row := RowFor(l, request, approved);
      if !EffectivelyApproved(request, approved) then (l.(trades := l.trades[id := row]), Recorded(row))
      else if !Qualifies(request, broker) then
        var rejected := row.(status := Rejected, rejectionReason := Some("ticker_unresolved"));
        (l.(trades := l.trades[id := rejected]), Recorded(rejected))
      else
        match RequestBracket(request, broker.baseOrderId)
        // the call raises after the row was added to the session, which is committed later
        case Err(error) => (l.(trades := l.trades[id := row]), BracketRefused(error))
        case Ok(legs) =>
          var submitted := row.(status := Submitted, ibkrOrderId := Some(legs[0].orderId),
                                ibkrStopOrderId := Some(legs[1].orderId));
          (l.(trades := l.trades[id := submitted], placed := l.placed + Label(id, legs)), Recorded(submitted))
  }

  function FillOf(trade: Trade, price: real, qty: int): PositionBook.Fill {
    PositionBook.Fill.Fill(trade.dealId, trade.side, price, qty)
  }

  function FilledTrade(trade: Trade, price: real, qty: int, pnl: Option<real>): Trade {
    trade.(status := Filled, filledPrice := Some(price), filledQuantity := Some(qty),
           pnlRealized := if pnl.Some? then pnl else trade.pnlRealized)
  }

  /** A fill the position table refuses is rolled back whole. */
  function FillStep(l: Ledger, id: string, price: real, qty: int): Ledger {
    if id !in l.trades then l
    else
      match ApplyFill(l.positions, FillOf(l.trades[id], price, qty))
      case Err(_) => l
      case Ok(booked) =>
        l.(trades := l.trades[id := FilledTrade(l.trades[id], price, qty, booked.pnl)], positions := booked.positions)
  }

  function RejectStep(l: Ledger, id: string, reason: string): Ledger {
    if id !in l.trades then l
    else l.(trades := l.trades[id := l.trades[id].(status := Rejected, rejectionReason := Some(reason))])
  }

  datatype Event =
    | Submit(request: TradeRequest, approved: bool, broker: BrokerReply)
    | Fill(tradeId: string, price: real, qty: int)
    | Reject(tradeId: string, reason: string)

  function Step(l: Ledger, e: Event): Ledger {
    match e
    case Submit(request, approved, broker) => SubmitStep(l, request, approved, broker).0
    case Fill(id, price, qty) => FillStep(l, id, price, qty)
    case Reject(id, reason) => RejectStep(l, id, reason)
  }

  function Run(l: Ledger, events: seq<Event>): Ledger {
    if events == [] then l else Step(Run(l, events[..|events| - 1]), events[|events| - 1])
  }

  // ----- exactly-once brackets

  /** The orders one request has ever placed. */
  function OrdersOf(placed: seq<PlacedOrder>, id: string): seq<BracketLeg> {
    if placed == [] then []
    else
      var front, last := OrdersOf(placed[..|placed| - 1], id), placed[|placed| - 1];
      if last.tradeId == id then front + [last.leg] else front
  }

  lemma OrdersOfLabelled(placed: seq<PlacedOrder>, tradeId: string, legs: seq<BracketLeg>, id: string)
    ensures OrdersOf(placed + Label(tradeId, legs), id) == OrdersOf(placed, id) + if id == tradeId then legs else []
  {
    if legs == [] {
      assert placed + Label(tradeId, legs) == placed;
    } else {
      var front := legs[..|legs| - 1];
      var all := placed + Label(tradeId, legs);
      assert all[..|all| - 1] == placed + Label(tradeId, front);
      OrdersOfLabelled(placed, tradeId, front, id);
      assert front + [legs[|legs| - 1]] == legs;
    }
  }

  /** Exactly the legs of one accepted bracket. */
  ghost predicate OneBracket(legs: seq<BracketLeg>) {
    exists qty, parentId :: ProtectedBracket(legs, qty, parentId)
  }

  /** Nothing was sent for an id that is absent or still pending, and at most one bracket for any other. */
  ghost predicate AtMostOneBracket(l: Ledger) {
    forall id :: OrdersOf(l.placed, id) == [] ||
      (id in l.trades && IsTerminal(l.trades[id].status) && OneBracket(OrdersOf(l.placed, id)))
  }

  /** Rows are never dropped, keep what was asked for, and never become pending again. */
  ghost predicate RowsKept(before: map<string, Trade>, after: map<string, Trade>) {
    forall id | id in before ::
      && id in after
      && after[id].dealId == before[id].dealId && after[id].side == before[id].side
      && after[id].quantity == before[id].quantity && after[id].limitPrice == before[id].limitPrice
      && after[id].stopLossPrice == before[id].stopLossPrice && after[id].takeProfitPrice == before[id].takeProfitPrice
      && (IsTerminal(before[id].status) ==> IsTerminal(after[id].status))
  }

  /** Once orders were sent for an id, no later call adds to them. */
  ghost predicate OrdersFinal(before: seq<PlacedOrder>, after: seq<PlacedOrder>) {
    forall id :: OrdersOf(before, id) == [] || OrdersOf(after, id) == OrdersOf(before, id)
  }

  /** What one call sends: the bracket of a request that may be placed, and nothing otherwise. */
  lemma StepSends(l: Ledger, e: Event)
    ensures Step(l, e).placed ==
            if e.Submit? && Places(l, e.request, e.approved, e.broker)
            then l.placed + Label(e.request.tradeId, RequestBracket(e.request, e.broker.baseOrderId).value)
            else l.placed
    ensures e.Submit? && Places(l, e.request, e.approved, e.broker) ==>
              var id := e.request.tradeId;
              (id in l.trades ==> l.trades[id].status == Pending) &&
              id in Step(l, e).trades && Step(l, e).trades[id].status == Submitted
    ensures RowsKept(l.trades, Step(l, e).trades)
  {
    hide RequestBracket, ApplyFill, Label, HasOpenTrade, EffectivelyApproved, Qualifies;
  }

  lemma StepKeepsBrackets(l: Ledger, e: Event)
    requires AtMostOneBracket(l)
    ensures AtMostOneBracket(Step(l, e))
    ensures OrdersFinal(l.placed, Step(l, e).placed)
  {
    hide Step, Places, RequestBracket, Label, ProtectedBracket;
    StepSends(l, e);
    if e.Submit? && Places(l, e.request, e.approved, e.broker) {
      PlacesAccepted(l, e.request, e.approved, e.broker);
      var id, legs := e.request.tradeId, RequestBracket(e.request, e.broker.baseOrderId).value;
      assert OrdersOf(l.placed, id) == [];
      forall other
        ensures OrdersOf(Step(l, e).placed, other) == if other == id then legs else OrdersOf(l.placed, other)
      {
        OrdersOfLabelled(l.placed, id, legs, other);
      }
    }
  }

  lemma PlacesAccepted(l: Ledger, request: TradeRequest, approved: bool, broker: BrokerReply)
    requires Places(l, request, approved, broker)
    ensures RequestBracket(request, broker.baseOrderId).Ok?
    ensures OneBracket(RequestBracket(request, broker.baseOrderId).value)
  {
    hide RequestBracket;
    AcceptedIsProtected(request, broker.baseOrderId);
  }

  /**
   Exactly-once brackets: over any run of submits, approvals, fills and
   rejections, in any order, each trade id keeps its one row and is sent at most
   one bracket, which nothing later changes.
   */
  lemma {:induction false} BracketsOncePerTrade(l: Ledger, events: seq<Event>)
    requires AtMostOneBracket(l)
    ensures AtMostOneBracket(Run(l, events))
    ensures RowsKept(l.trades, Run(l, events).trades)
    ensures OrdersFinal(l.placed, Run(l, events).placed)
  {
    hide Step, AtMostOneBracket;
    RowsKeptInRuns(l, events);
    if events != [] {
      BracketsOncePerTrade(l, events[..|events| - 1]);
      StepKeepsBrackets(Run(l, events[..|events| - 1]), events[|events| - 1]);
      OrdersFinalTransitive(l.placed, Run(l, events[..|events| - 1]).placed, Run(l, events).placed);
    }
  }

  lemma OrdersFinalTransitive(a: seq<PlacedOrder>, b: seq<PlacedOrder>, c: seq<PlacedOrder>)
    requires OrdersFinal(a, b) && OrdersFinal(b, c)
    ensures OrdersFinal(a, c)
  {
  }

  lemma {:induction false} RowsKeptInRuns(l: Ledger, events: seq<Event>)
    ensures RowsKept(l.trades, Run(l, events).trades)
  {
    hide Step;
    if events != [] {
      RowsKeptInRuns(l, events[..|events| - 1]);
      StepSends(Run(l, events[..|events| - 1]), events[|events| - 1]);
    }
  }

  /** A row that is not pending answers every later submit of its id as it stands by then. */
  lemma LateSubmitIsNoop(l: Ledger, events: seq<Event>, request: TradeRequest, approved: bool, broker: BrokerReply)
    requires request.tradeId in l.trades && IsTerminal(l.trades[request.tradeId].status)
    ensures
      var later := Run(l, events);
      request.tradeId in later.trades &&
      SubmitStep(later, request, approved, broker) == (later, Recorded(later.trades[request.tradeId]))
  {
    hide Run, RequestBracket, Label, HasOpenTrade, Qualifies;
    RowsKeptInRuns(l, events);
  }

  /**
   Once a submit has answered with a row it acted on, or found acted on, that id
   is done: after any further calls, a submit of it with whatever contents,
   approval and broker changes nothing and answers with the row.
   */
  lemma RetryIsIdempotent(l: Ledger, request: TradeRequest, approved: bool, broker: BrokerReply,
                          events: seq<Event>, request': TradeRequest, approved': bool, broker': BrokerReply)
    requires request'.tradeId == request.tradeId
    requires
      var (l', outcome) := SubmitStep(l, request, approved, broker);
      outcome.Recorded? && IsTerminal(outcome.trade.status)
    ensures
      var (l', outcome) := SubmitStep(l, request, approved, broker);
      && SubmitStep(l', request', approved', broker') == (l', outcome)
      && request.tradeId in Run(l', events).trades
      && SubmitStep(Run(l', events), request', approved', broker') ==
         (Run(l', events), Recorded(Run(l', events).trades[request.tradeId]))
  {
    hide RequestBracket, Run;
    LateSubmitIsNoop(SubmitStep(l, request, approved, broker).0, events, request', approved', broker');
  }

  // ----- one open trade per deal

  ghost predicate OtherOpenTrade(l: Ledger, id: string, deal: int) {
    exists other :: other in l.trades && other != id && l.trades[other].dealId == deal && IsOpen(l.trades[other].status)
  }

  ghost predicate OneOpenTradePerDeal(l: Ledger) {
    forall id :: id in l.trades && IsOpen(l.trades[id].status) ==> !OtherOpenTrade(l, id, l.trades[id].dealId)
  }

  /**
   The calls that put a second open trade on a deal: approving a pending row, or
   reporting a fill for a row that is not open, while another trade of its deal is.
   */
  ghost predicate Collides(l: Ledger, e: Event) {
    match e
    case Submit(request, approved, broker) =>
      request.tradeId in l.trades && Places(l, request, approved, broker) &&
      OtherOpenTrade(l, request.tradeId, l.trades[request.tradeId].dealId)
    case Fill(id, price, qty) =>
      id in l.trades && !IsOpen(l.trades[id].status) &&
      ApplyFill(l.positions, FillOf(l.trades[id], price, qty)).Ok? && OtherOpenTrade(l, id, l.trades[id].dealId)
    case Reject(_, _) => false
  }

  /** The trade, if any, whose row a call writes with an open status. */
  function Opened(l: Ledger, e: Event): Option<string> {
    match e
    case Submit(request, approved, broker) =>
      if Places(l, request, approved, broker) then Some(request.tradeId) else None
    case Fill(id, price, qty) =>
      if id in l.trades && ApplyFill(l.positions, FillOf(l.trades[id], price, qty)).Ok? then Some(id) else None
    case Reject(_, _) => None
  }

  /** Rows keep their deal, and only the row `newly` written as open can have become open. */
  ghost predicate OnlyOpens(before: map<string, Trade>, after: map<string, Trade>, newly: Option<string>) {
    && (forall id | id in before :: id in after && after[id].dealId == before[id].dealId)
    && (forall id | id in after && IsOpen(after[id].status) ::
        newly == Some(id) || (id in before && IsOpen(before[id].status)))
    && (newly.Some? ==> newly.value in after && IsOpen(after[newly.value].status))
    && (newly.Some? ==> forall id | id in before && id != newly.value :: after[id] == before[id])
  }

  lemma PutRow(before: map<string, Trade>, id: string, row: Trade)
    requires id in before ==> before[id].dealId == row.dealId
    ensures
      OnlyOpens(before, before[id := row],
                if IsOpen(row.status) then Some(id) else None)
  {
  }

  lemma SubmitRows(l: Ledger, request: TradeRequest, approved: bool, broker: BrokerReply)
    ensures
      var newly := Opened(l, Submit(request, approved, broker));
      && OnlyOpens(l.trades, SubmitStep(l, request, approved, broker).0.trades, newly)
      && (newly.Some? && newly.value !in l.trades ==>
            (SubmitStep(l, request, approved, broker).0.trades[newly.value].dealId == request.dealId
             && !HasOpenTrade(l.trades, request.dealId)))
  {
    hide RequestBracket, Label, HasOpenTrade, EffectivelyApproved, Qualifies, OnlyOpens;
    var (l', outcome) := SubmitStep(l, request, approved, broker);
    if l'.trades == l.trades {
      Unchanged(l.trades);
    }
    if request.tradeId in l'.trades {
      PutRow(l.trades, request.tradeId, l'.trades[request.tradeId]);
    }
  }

  lemma Unchanged(trades: map<string, Trade>)
    ensures OnlyOpens(trades, trades, None)
  {
  }

  lemma StepRows(l: Ledger, e: Event)
    ensures OnlyOpens(l.trades, Step(l, e).trades, Opened(l, e))
    ensures e.Submit? && Opened(l, e).Some? && e.request.tradeId !in l.trades ==>
              (Step(l, e).trades[e.request.tradeId].dealId == e.request.dealId
               && !HasOpenTrade(l.trades, e.request.dealId))
  {
    hide ApplyFill, SubmitStep, HasOpenTrade, Places, OnlyOpens;
    Unchanged(l.trades);
    match e
    case Submit(request, approved, broker) => SubmitRows(l, request, approved, broker);
    case Fill(id, price, qty) =>
      if Opened(l, e).Some? {
        PutRow(l.trades, id, Step(l, e).trades[id]);
      }
    case Reject(id, reason) =>
      if id in l.trades {
        PutRow(l.trades, id, Step(l, e).trades[id]);
      }
  }

  /** A call keeps one open trade per deal if and only if it is not a colliding one. */
  lemma OneOpenTradeKeptIff(l: Ledger, e: Event)
    requires OneOpenTradePerDeal(l)
    ensures OneOpenTradePerDeal(Step(l, e)) <==> !Collides(l, e)
  {
    hide Step, Places, ApplyFill, HasOpenTrade;
    StepRows(l, e);
    var l', newly := Step(l, e), Opened(l, e);
    if Collides(l, e) {
      var id := newly.value;
      var other :| other in l.trades && other != id && l.trades[other].dealId == l.trades[id].dealId
          && IsOpen(l.trades[other].status);
      assert l'.trades[other] == l.trades[other];
      assert OtherOpenTrade(l', id, l'.trades[id].dealId);
    } else {
      forall id, other | id in l'.trades && other in l'.trades && id != other
                         && IsOpen(l'.trades[id].status) && IsOpen(l'.trades[other].status)
        ensures l'.trades[id].dealId != l'.trades[other].dealId
      {
        if newly == Some(id) {
          NoClash(l, e, id, other);
        } else if newly == Some(other) {
          NoClash(l, e, other, id);
        } else {
          assert !OtherOpenTrade(l, id, l.trades[id].dealId);
        }
      }
    }
  }

  lemma NoClash(l: Ledger, e: Event, id: string, other: string)
    requires OneOpenTradePerDeal(l) && !Collides(l, e) && Opened(l, e) == Some(id)
    requires other != id && other in l.trades && IsOpen(l.trades[other].status)
    ensures id in Step(l, e).trades && Step(l, e).trades[id].dealId != l.trades[other].dealId
  {
    hide Step, Places, ApplyFill;
    StepRows(l, e);
    assert OtherOpenTrade(l, id, l.trades[other].dealId);
  }

  /** Fresh ids on every submit and fills reported for submitted trades only: the calls the scheduler makes. */
  ghost predicate Disciplined(l: Ledger, e: Event) {
    match e
    case Submit(request, _, _) => request.tradeId !in l.trades
    case Fill(id, _, _) => id in l.trades ==> l.trades[id].status == Submitted
    case Reject(_, _) => true
  }

  lemma DisciplinedNeverCollides(l: Ledger, e: Event)
    requires Disciplined(l, e)
    ensures !Collides(l, e)
  {
    hide Places, ApplyFill;
  }

  ghost predicate CollisionFree(l: Ledger, events: seq<Event>) {
    events != [] ==>
      var front := events[..|events| - 1];
      CollisionFree(l, front) && !Collides(Run(l, front), events[|events| - 1])
  }

  ghost predicate DisciplinedRun(l: Ledger, events: seq<Event>) {
    events != [] ==>
      var front := events[..|events| - 1];
      DisciplinedRun(l, front) && Disciplined(Run(l, front), events[|events| - 1])
  }

  lemma {:induction false} DisciplinedRunIsCollisionFree(l: Ledger, events: seq<Event>)
    requires DisciplinedRun(l, events)
    ensures CollisionFree(l, events)
  {
    hide Collides, Disciplined, Run;
    if events != [] {
      DisciplinedRunIsCollisionFree(l, events[..|events| - 1]);
      DisciplinedNeverCollides(Run(l, events[..|events| - 1]), events[|events| - 1]);
    }
  }

  /**
   No deal ever has two open trades in a run without colliding calls; runs with
   fresh ids and fills for submitted trades only are such runs.
   */
  lemma {:induction false} OneOpenTradeAlways(l: Ledger, events: seq<Event>)
    requires OneOpenTradePerDeal(l) && CollisionFree(l, events)
    ensures OneOpenTradePerDeal(Run(l, events))
  {
    hide Collides, Step, OneOpenTradePerDeal;
    if events != [] {
      OneOpenTradeAlways(l, events[..|events| - 1]);
      OneOpenTradeKeptIff(Run(l, events[..|events| - 1]), events[|events| - 1]);
    }
  }

  /** The duplicate test alone does not do it: two rows that wait for approval are both sent once approved. */
  lemma ApprovalsCollide(first: TradeRequest, second: TradeRequest, broker: BrokerReply)
    requires first.tradeId != second.tradeId && first.dealId == second.dealId
    requires first.requiresApproval && second.requiresApproval
    requires Qualifies(first, broker) && Qualifies(second, broker)
    requires RequestBracket(first, broker.baseOrderId).Ok? && RequestBracket(second, broker.baseOrderId).Ok?
    ensures
      var l := Run(EMPTY_LEDGER, [Submit(first, false, broker), Submit(second, false, broker),
                                  Submit(first, true, broker), Submit(second, true, broker)]);
      && first.tradeId in l.trades && l.trades[first.tradeId].status == Submitted
      && second.tradeId in l.trades && l.trades[second.tradeId].status == Submitted
      && !OneOpenTradePerDeal(l)
  {
    AcceptedHasQuantity(first, broker.baseOrderId);
    AcceptedHasQuantity(second, broker.baseOrderId);
    hide RequestBracket, Label;
    var calls := [Submit(first, false, broker), Submit(second, false, broker),
                  Submit(first, true, broker), Submit(second, true, broker)];
    assert calls[..4] == calls && calls[..3][..2] == calls[..2] && calls[..2][..1] == calls[..1]
        && calls[..1][..0] == [];
    var l1 := Step(EMPTY_LEDGER, calls[0]);
    var l2 := Step(l1, calls[1]);
    var l3 := Step(l2, calls[2]);
    var l4 := Step(l3, calls[3]);
    assert Run(EMPTY_LEDGER, calls[..1]) == l1;
    assert Run(EMPTY_LEDGER, calls[..2]) == l2;
    assert Run(EMPTY_LEDGER, calls[..3]) == l3;
    assert l2.trades[first.tradeId].status == Pending && l2.trades[second.tradeId].status == Pending;
    assert l3.trades[first.tradeId].status == Submitted && l3.trades[second.tradeId].status == Pending;
    assert OtherOpenTrade(l4, second.tradeId, l4.trades[second.tradeId].dealId) by {
      assert l4.trades[first.tradeId] == l3.trades[first.tradeId];
    }
  }

  /** No run of any kind gives a deal two open positions. */
  lemma {:induction false} OneOpenPositionAlways(l: Ledger, events: seq<Event>)
    requires OneOpenPerDeal(l.positions)
    ensures OneOpenPerDeal(Run(l, events).positions)
  {
    hide ApplyFill, OneOpenPerDeal, SubmitStep;
    if events != [] {
      var front, e := events[..|events| - 1], events[|events| - 1];
      OneOpenPositionAlways(l, front);
      var before := Run(l, front);
      if e.Fill? && e.tradeId in before.trades {
        FillKeepsOneOpenPerDeal(before.positions, FillOf(before.trades[e.tradeId], e.price, e.qty));
      } else if e.Submit? {
        SubmitKeepsPositions(before, e.request, e.approved, e.broker);
      }
    }
  }

  lemma SubmitKeepsPositions(l: Ledger, request: TradeRequest, approved: bool, broker: BrokerReply)
    ensures SubmitStep(l, request, approved, broker).0.positions == l.positions
  {
    hide RequestBracket;
  }

  // ----- what every single call keeps

  ghost predicate Safe(l: Ledger) {
    AtMostOneBracket(l) && OneOpenPerDeal(l.positions)
  }

  /** From one moment to a later one: no row is lost or reopened, no sent order is added to. */
  ghost predicate Follows(before: Ledger, after: Ledger) {
    RowsKept(before.trades, after.trades) && OrdersFinal(before.placed, after.placed)
  }

  lemma FollowsItself(l: Ledger)
    ensures Follows(l, l)
  {
  }

  lemma FollowsTransitive(a: Ledger, b: Ledger, c: Ledger)
    requires Follows(a, b) && Follows(b, c)
    ensures Follows(a, c)
  {
    OrdersFinalTransitive(a.placed, b.placed, c.placed);
  }

  lemma StepIsSafe(l: Ledger, e: Event)
    requires Safe(l)
    ensures Safe(Step(l, e)) && Follows(l, Step(l, e))
  {
    hide Step, AtMostOneBracket, RowsKept, OrdersFinal, OneOpenPerDeal;
    StepKeepsBrackets(l, e);
    StepSends(l, e);
    assert Run(l, [e]) == Step(l, e) by { RunOne(l, e); }
    OneOpenPositionAlways(l, [e]);
  }

  lemma RunOne(l: Ledger, e: Event)
    ensures Run(l, [e]) == Step(l, e)
  {
    hide Step;
    assert [e][..0] == [];
  }
}
