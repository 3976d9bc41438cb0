/**
 What a row of the ledger says about the orders sent for it. An approval keeps
 the row it finds but builds the bracket from the request it is given
 (src/trading/executor.py:74-118).
 */
module OrderRecords {
  import opened Common
  import opened BracketBuilder
  import opened DecisionEngine
  import opened PositionBook
  import opened TradeLedger

  // ----- the order ids

  /** A row names the parent and the stop of its bracket, or nothing while nothing was sent. */
  predicate NamesOrders(row: Trade, legs: seq<BracketLeg>) {
    if legs == [] then row.ibkrOrderId.None? && row.ibkrStopOrderId.None?
    else |legs| >= 2 && row.ibkrOrderId == Some(legs[0].orderId) && row.ibkrStopOrderId == Some(legs[1].orderId)
  }

  ghost predicate RowsNameOrders(l: Ledger) {
    forall id :: id in l.trades ==> l.trades[id].quantity > 0 && NamesOrders(l.trades[id], OrdersOf(l.placed, id))
  }

  /** The call sends the bracket of this id. */
  predicate Sends(l: Ledger, e: Event, id: string) {
    e.Submit? && e.request.tradeId == id && Places(l, e.request, e.approved, e.broker)
  }

  lemma OrdersAfter(l: Ledger, e: Event, id: string)
    ensures
      OrdersOf(Step(l, e).placed, id) ==
      OrdersOf(l.placed, id) + if Sends(l, e, id) then RequestBracket(e.request, e.broker.baseOrderId).value else []
  {
    hide Step, Places, RequestBracket, OrdersOf, Label;
    StepSends(l, e);
    if e.Submit? && Places(l, e.request, e.approved, e.broker) {
      PlacesAccepted(l, e.request, e.approved, e.broker);
      OrdersOfLabelled(l.placed, e.request.tradeId, RequestBracket(e.request, e.broker.baseOrderId).value, id);
    }
  }

  /** Quantity and prices are those of the request. */
  predicate Copies(row: Trade, request: TradeRequest) {
    && row.quantity == request.quantity && row.limitPrice == request.limitPrice
    && row.stopLossPrice == request.stopLossPrice && row.takeProfitPrice == request.takeProfitPrice
  }

  lemma RowAfter(l: Ledger, e: Event, id: string)
    requires id in Step(l, e).trades
    ensures id !in l.trades ==>
              e.Submit? && e.request.tradeId == id && e.request.quantity > 0 && Copies(Step(l, e).trades[id], e.request)
    ensures
      var row := Step(l, e).trades[id];
      if Sends(l, e, id) then
        var legs := RequestBracket(e.request, e.broker.baseOrderId).value;
        |legs| >= 2 && row.ibkrOrderId == Some(legs[0].orderId) && row.ibkrStopOrderId == Some(legs[1].orderId)
      else if id in l.trades then
        row.ibkrOrderId == l.trades[id].ibkrOrderId && row.ibkrStopOrderId == l.trades[id].ibkrStopOrderId
      else
        row.ibkrOrderId.None? && row.ibkrStopOrderId.None?
  {
    if Sends(l, e, id) {
      AcceptedIsProtected(e.request, e.broker.baseOrderId);
    }
    hide RequestBracket, ApplyFill, Label, HasOpenTrade, EffectivelyApproved, Qualifies;
  }

  lemma StepNamesOrders(l: Ledger, e: Event)
    requires AtMostOneBracket(l) && RowsNameOrders(l)
    ensures RowsNameOrders(Step(l, e))
  {
    hide Step, RequestBracket, Sends, OrdersOf, OneBracket;
    StepSends(l, e);
    forall id | id in Step(l, e).trades
      ensures Step(l, e).trades[id].quantity > 0 && NamesOrders(Step(l, e).trades[id], OrdersOf(Step(l, e).placed, id))
    {
      RowAfter(l, e, id);
      OrdersAfter(l, e, id);
      if Sends(l, e, id) {
        NothingSentBefore(l, e, id);
      }
    }
  }

  lemma NothingSentBefore(l: Ledger, e: Event, id: string)
    requires AtMostOneBracket(l) && Sends(l, e, id)
    ensures OrdersOf(l.placed, id) == []
    ensures OneBracket(RequestBracket(e.request, e.broker.baseOrderId).value)
  {
    hide RequestBracket, OrdersOf, OneBracket, HasOpenTrade, Qualifies;
    PlacesAccepted(l, e.request, e.approved, e.broker);
  }

  /**
   Over every run each row has a positive quantity and names the broker ids of
   the bracket sent for it, or none while none was sent.
   */
  lemma {:induction false} RowsAlwaysNameOrders(l: Ledger, events: seq<Event>)
    requires AtMostOneBracket(l) && RowsNameOrders(l)
    ensures RowsNameOrders(Run(l, events))
  {
    hide Step, AtMostOneBracket, RowsNameOrders;
    if events != [] {
      BracketsOncePerTrade(l, events[..|events| - 1]);
      RowsAlwaysNameOrders(l, events[..|events| - 1]);
      StepNamesOrders(Run(l, events[..|events| - 1]), events[|events| - 1]);
    }
  }

  // ----- what was ordered

  /** The bracket that the row itself asks for. */
  function RowBracket(row: Trade, parentId: int): Result<seq<BracketLeg>, BracketError> {
    Bracket(row.quantity, row.limitPrice, row.stopLossPrice, row.takeProfitPrice, parentId, DEFAULT_TICK_SIZE)
  }

  /** What was sent for a row, if anything, is the bracket of that row, leg by leg. */
  predicate AsRecorded(row: Trade, legs: seq<BracketLeg>) {
    legs == [] || RowBracket(row, legs[0].orderId) == Ok(legs)
  }

  ghost predicate SentAsRecorded(l: Ledger) {
    forall id :: id in l.trades ==> AsRecorded(l.trades[id], OrdersOf(l.placed, id))
  }

  function OnTick(price: real): real {
    RoundToTick(price, DEFAULT_TICK_SIZE)
  }

  /** The request asks for the quantity of the row and for its prices, to the tick. */
  predicate SameOrder(row: Trade, request: TradeRequest) {
    && request.quantity == row.quantity
    && OnTick(request.limitPrice) == OnTick(row.limitPrice)
    && OnTick(request.stopLossPrice) == OnTick(row.stopLossPrice)
    && (request.takeProfitPrice.Some? <==> row.takeProfitPrice.Some?)
    && (request.takeProfitPrice.Some? ==> OnTick(request.takeProfitPrice.value) == OnTick(row.takeProfitPrice.value))
  }

  lemma TickOfPositive(price: real)
    requires OnTick(price) > 0.0
    ensures price > 0.0
  {
    OnTheCentGrid(price);
  }

  lemma SameLegsIff(qty: int, entry: real, stop: real, tp: Option<real>,
                    qty': int, entry': real, stop': real, tp': Option<real>, parentId: int)
    ensures Legs(qty, entry, stop, tp, parentId) == Legs(qty', entry', stop', tp', parentId) <==>
            qty == qty' && entry == entry' && stop == stop' && tp == tp'
  {
    var a, b := Legs(qty, entry, stop, tp, parentId), Legs(qty', entry', stop', tp', parentId);
    if a == b {
      assert a[0] == b[0] && a[1] == b[1] && |a| == |b|;
      if tp.Some? {
        assert a[2] == b[2];
      }
    }
  }

  function TargetOnTick(takeProfit: Option<real>): Option<real> {
    if takeProfit.Some? then Some(OnTick(takeProfit.value)) else None
  }

  lemma SameBracketIff(row: Trade, request: TradeRequest, parentId: int)
    requires RequestBracket(request, parentId).Ok?
    ensures RowBracket(row, parentId) == RequestBracket(request, parentId) <==> SameOrder(row, request)
  {
    hide RoundToTick, Legs;
    if SameOrder(row, request) {
      TickOfPositive(row.limitPrice);
    }
    SameLegsIff(row.quantity, OnTick(row.limitPrice), OnTick(row.stopLossPrice), TargetOnTick(row.takeProfitPrice),
                request.quantity, OnTick(request.limitPrice), OnTick(request.stopLossPrice),
                TargetOnTick(request.takeProfitPrice),
                parentId);
  }

  /** A pending row is approved with a request for something else. */
  predicate Mismatched(l: Ledger, e: Event) {
    && e.Submit? && e.request.tradeId in l.trades && Places(l, e.request, e.approved, e.broker)
    && !SameOrder(l.trades[e.request.tradeId], e.request)
  }

  lemma RowContents(l: Ledger, e: Event, id: string)
    ensures id in l.trades ==> id in Step(l, e).trades && SameContents(l.trades[id], Step(l, e).trades[id])
  {
    hide Step, Places, RequestBracket;
    StepSends(l, e);
  }

  lemma SentMatchesIff(l: Ledger, e: Event, id: string)
    requires AtMostOneBracket(l) && Sends(l, e, id) && id in Step(l, e).trades
    ensures AsRecorded(Step(l, e).trades[id], OrdersOf(Step(l, e).placed, id)) <==> !Mismatched(l, e)
  {
    hide Step, Places, OrdersOf, RequestBracket, RowBracket, SameOrder, AtMostOneBracket, OneBracket, SameContents,
        Copies;
    var row := Step(l, e).trades[id];
    PlacesAccepted(l, e.request, e.approved, e.broker);
    RowAfter(l, e, id);
    OrdersAfter(l, e, id);
    NothingSentBefore(l, e, id);
    RowContents(l, e, id);
    assert OrdersOf(Step(l, e).placed, id) == RequestBracket(e.request, e.broker.baseOrderId).value;
    FirstOrderId(e.request, e.broker.baseOrderId);
    SameBracketIff(row, e.request, e.broker.baseOrderId);
    if id in l.trades {
      SameContentsSameOrder(l.trades[id], row, e.request);
    } else {
      CopyIsSameOrder(row, e.request);
    }
  }

  lemma FirstOrderId(request: TradeRequest, parentId: int)
    requires RequestBracket(request, parentId).Ok?
    ensures
      var legs := RequestBracket(request, parentId).value;
      legs != [] && legs[0].orderId == parentId
  {
  }

  lemma CopyIsSameOrder(row: Trade, request: TradeRequest)
    requires Copies(row, request)
    ensures SameOrder(row, request)
  {
  }

  predicate SameContents(row: Trade, row': Trade) {
    && row'.quantity == row.quantity && row'.limitPrice == row.limitPrice
    && row'.stopLossPrice == row.stopLossPrice && row'.takeProfitPrice == row.takeProfitPrice
  }

  lemma SameContentsSameBracket(row: Trade, row': Trade, parentId: int)
    requires SameContents(row, row')
    ensures RowBracket(row', parentId) == RowBracket(row, parentId)
  {
  }

  lemma SameContentsSameOrder(row: Trade, row': Trade, request: TradeRequest)
    requires SameContents(row, row')
    ensures SameOrder(row', request) == SameOrder(row, request)
  {
  }

  lemma UnknownSentNothing(l: Ledger, id: string)
    requires AtMostOneBracket(l) && id !in l.trades
    ensures OrdersOf(l.placed, id) == []
  {
    hide OrdersOf, OneBracket;
  }

  /** Nothing changes for a row that the call sends nothing for. */
  lemma UnsentStays(l: Ledger, e: Event, id: string)
    requires AtMostOneBracket(l) && SentAsRecorded(l) && !Sends(l, e, id) && id in Step(l, e).trades
    ensures AsRecorded(Step(l, e).trades[id], OrdersOf(Step(l, e).placed, id))
  {
    hide Step, Sends, OrdersOf, RowBracket, AtMostOneBracket, SameContents;
    OrdersAfter(l, e, id);
    RowContents(l, e, id);
    var legs := OrdersOf(l.placed, id);
    assert OrdersOf(Step(l, e).placed, id) == legs;
    if id !in l.trades {
      UnknownSentNothing(l, id);
    } else if legs != [] {
      SameContentsSameBracket(l.trades[id], Step(l, e).trades[id], legs[0].orderId);
    }
  }

  /**
   A call keeps the orders in step with their rows if and only if it is not an
   approval whose request differs from its row in quantity or, to the tick, in
   a price.
   */
  lemma SentAsRecordedKeptIff(l: Ledger, e: Event)
    requires AtMostOneBracket(l) && SentAsRecorded(l)
    ensures SentAsRecorded(Step(l, e)) <==> !Mismatched(l, e)
  {
    hide Step, OrdersOf, AsRecorded, Places, SameOrder, AtMostOneBracket;
    StepSends(l, e);
    forall id | id in Step(l, e).trades
      ensures AsRecorded(Step(l, e).trades[id], OrdersOf(Step(l, e).placed, id)) <==>
        !(Mismatched(l, e) && e.request.tradeId == id)
    {
      if Sends(l, e, id) {
        SentMatchesIff(l, e, id);
      } else {
        UnsentStays(l, e, id);
      }
    }
  }

  ghost predicate MatchedRun(l: Ledger, events: seq<Event>) {
    events != [] ==>
      var front := events[..|events| - 1];
      MatchedRun(l, front) && !Mismatched(Run(l, front), events[|events| - 1])
  }

  /** So in a run without such approvals every bracket sent is that of its row. */
  lemma {:induction false} AlwaysSentAsRecorded(l: Ledger, events: seq<Event>)
    requires AtMostOneBracket(l) && SentAsRecorded(l) && MatchedRun(l, events)
    ensures SentAsRecorded(Run(l, events))
  {
    hide Step, AtMostOneBracket, SentAsRecorded, Mismatched;
    if events != [] {
      BracketsOncePerTrade(l, events[..|events| - 1]);
      AlwaysSentAsRecorded(l, events[..|events| - 1]);
      SentAsRecordedKeptIff(Run(l, events[..|events| - 1]), events[|events| - 1]);
    }
  }
}
