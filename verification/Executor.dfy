/**
 The trade executor as the object it is: its methods rewrite the ledger rows,
 the order log and the position book in place (src/trading/executor.py). Each
 is proved against the step function of TradeLedger.
 */
module Executor {
  import opened Common
  import opened BracketBuilder
  import opened DecisionEngine
  import opened PositionBook
  import opened TradeLedger

  class TradeExecutor {
    var trades: map<string, Trade>
    var positions: seq<Position>
    var placed: seq<PlacedOrder>

    function State(): Ledger
      reads this
    {
      Ledger(trades, positions, placed)
    }

    /** What every call keeps, whatever its arguments. */
    ghost predicate Valid()
      reads this
    {
      Safe(State())
    }

    constructor ()
      ensures Valid() && State() == EMPTY_LEDGER
    {
      trades, positions, placed := map[], [], [];
    }

    method Submit(request: TradeRequest, approved: bool, broker: BrokerReply) returns (outcome: SubmitOutcome)
      requires Valid()
      modifies this
      ensures Valid()
      ensures (State(), outcome) == SubmitStep(old(State()), request, approved, broker)
      ensures Follows(old(State()), State())
    {
      hide Safe, Follows, RequestBracket, Bracket, HasOpenTrade, Label, Qualifies, EffectivelyApproved;
      StepIsSafe(State(), Event.Submit(request, approved, broker));
      var id := request.tradeId;
      if id in trades && IsTerminal(trades[id].status) {
        return Recorded(trades[id]);
      }
      if id !in trades {
        var dup := HasOpenTrade(trades, request.dealId);
        if dup {
          return DuplicateSkipped;
        }
        if request.quantity <= 0 {
          return RowRefused;
        }
      }
      var effective := EffectivelyApproved(request, approved);
      var trade := (if id in trades then trades[id] else NewTrade(request)).(approved := effective);
      trades := trades[id := trade];
      if !effective {
        return Recorded(trade);
      }
      if !Qualifies(request, broker) {
        trade := trade.(status := Rejected, rejectionReason := Some("ticker_unresolved"));
        trades := trades[id := trade];
        assert trades == old(trades)[id := trade];
        return Recorded(trade);
      }
      var built := BuildBracket(request.quantity, request.limitPrice, request.stopLossPrice, request.takeProfitPrice,
                                broker.baseOrderId, DEFAULT_TICK_SIZE);
      BracketIs(request, broker.baseOrderId);
      if built.Err? {
        return BracketRefused(built.error);
      }
      PlaceOrders(id, built.value);
      trade := trade.(status := Submitted, ibkrOrderId := Some(built.value[0].orderId),
                      ibkrStopOrderId := Some(built.value[1].orderId));
      trades := trades[id := trade];
      assert trades == old(trades)[id := trade];
      return Recorded(trade);
    }

    /** Hands the legs to the broker one by one, in order. */
    method PlaceOrders(id: string, legs: seq<BracketLeg>)
      modifies this`placed
      ensures placed == old(placed) + Label(id, legs)
    {
      var i := 0;
      while i < |legs|
        invariant 0 <= i <= |legs|
        invariant placed == old(placed) + Label(id, legs[..i])
      {
        placed := placed + [PlacedOrder(id, legs[i])];
        i := i + 1;
        assert Label(id, legs[..i]) == Label(id, legs[..i - 1]) + [PlacedOrder(id, legs[i - 1])];
      }
      assert legs[..i] == legs;
    }

    /** Books a fill on the deal's position; the answer is the realised P&L, or that the table refused the row. */
    method ApplyFillToPosition(fill: PositionBook.Fill) returns (r: Result<Option<real>, FillError>)
      modifies this`positions
      ensures match ApplyFill(old(positions), fill)
              case Ok(booked) => r == Ok(booked.pnl) && positions == booked.positions
              case Err(e) => r == Err(e) && positions == old(positions)
    {
      hide FillEur, Averaged, RealisedPnl;
      var found := OpenOf(positions, fill.dealId);
      if fill.side == Buy {
        if found.None? {
          if FillEur(fill) <= 0.0 {
            return Err(SizeNotPositive);
          }
          positions := positions + [NewRow(fill)];
        } else {
          if found.value.sizeEur + FillEur(fill) <= 0.0 {
            return Err(SizeNotPositive);
          }
          positions := Rewrite(positions, fill.dealId, Averaged(found.value, fill));
        }
        return Ok(None);
      }
      if found.None? {
        return Ok(None);
      }
      positions := Rewrite(positions, fill.dealId, ClosedBy(found.value, fill));
      return Ok(RealisedPnl(found.value, fill.price));
    }

    method MarkFilled(id: string, price: real, qty: int) returns (done: bool)
      requires Valid() && id in trades
      modifies this
      ensures Valid()
      ensures State() == FillStep(old(State()), id, price, qty)
      ensures done <==> ApplyFill(old(positions), FillOf(old(trades)[id], price, qty)).Ok?
      ensures Follows(old(State()), State())
    {
      hide Safe, Follows, ApplyFill;
      StepIsSafe(State(), Event.Fill(id, price, qty));
      var booked := ApplyFillToPosition(FillOf(trades[id], price, qty));
      if booked.Err? {
        return false;
      }
      trades := trades[id := FilledTrade(trades[id], price, qty, booked.value)];
      return true;
    }

    method MarkRejected(id: string, reason: string)
      requires Valid() && id in trades
      modifies this`trades
      ensures Valid()
      ensures State() == RejectStep(old(State()), id, reason)
      ensures Follows(old(State()), State())
    {
      hide Safe, Follows;
      StepIsSafe(State(), Event.Reject(id, reason));
      trades := trades[id := trades[id].(status := Rejected, rejectionReason := Some(reason))];
    }
  }

  lemma BracketIs(request: TradeRequest, parentId: int)
    ensures RequestBracket(request, parentId) ==
            Bracket(request.quantity, request.limitPrice, request.stopLossPrice, request.takeProfitPrice, parentId,
                    DEFAULT_TICK_SIZE)
  {
  }
}
