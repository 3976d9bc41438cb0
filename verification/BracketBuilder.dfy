/**
 The long-only bracket: a limit BUY, a stop SELL and an optional take-profit
 SELL, all on the tick grid (src/trading/bracket_builder.py).
 */
module BracketBuilder {
  import opened Common
  import opened Rounding

  const DEFAULT_TICK_SIZE := 0.01

  datatype Action = Buy | Sell

  datatype OrderType = Lmt | Stp

  /** `parentId` is 0 on the parent leg. */
  datatype BracketLeg = BracketLeg(
    orderId: int, parentId: int, action: Action, qty: int, orderType: OrderType,
    limitPrice: Option<real>, stopPrice: Option<real>, transmit: bool)

  datatype BracketError = QtyNotPositive | EntryNotPositive | StopOutOfPlace | TakeProfitOutOfPlace

  function RoundToTick(price: real, tickSize: real): real {
    if tickSize <= 0.0 then price
    else Round4(RoundHalfEven(price / tickSize) as real * tickSize)
  }

  /** The first guard that a request for a bracket fails, if any. */
  function Refusal(qty: int, entryLimit: real, stopPrice: real, takeProfit: Option<real>,
                   tickSize: real): Option<BracketError> {
    var entry, stop := RoundToTick(entryLimit, tickSize), RoundToTick(stopPrice, tickSize);
    if qty <= 0 then Some(QtyNotPositive)
    else if entryLimit <= 0.0 then Some(EntryNotPositive)
    else if !(0.0 < stop < entry) then Some(StopOutOfPlace)
    else if takeProfit.Some? && RoundToTick(takeProfit.value, tickSize) <= entry then Some(TakeProfitOutOfPlace)
    else None
  }

  function Legs(qty: int, entry: real, stop: real, takeProfit: Option<real>, parentId: int): seq<BracketLeg> {
    [BracketLeg(parentId, 0, Buy, qty, Lmt, Some(entry), None, false),
     BracketLeg(parentId + 1, parentId, Sell, qty, Stp, None, Some(stop), takeProfit.None?)]
    + if takeProfit.None? then []
      else [BracketLeg(parentId + 2, parentId, Sell, qty, Lmt, Some(takeProfit.value), None, true)]
  }

  function Bracket(qty: int, entryLimit: real, stopPrice: real, takeProfit: Option<real>, parentId: int, tickSize: real)
    : Result<seq<BracketLeg>, BracketError>
  {
    match Refusal(qty, entryLimit, stopPrice, takeProfit, tickSize)
    case Some(error) => Err(error)
    case None =>
      var tp := if takeProfit.Some? then Some(RoundToTick(takeProfit.value, tickSize)) else None;
      Ok(Legs(qty, RoundToTick(entryLimit, tickSize), RoundToTick(stopPrice, tickSize), tp, parentId))
  }

  method BuildBracket(qty: int, entryLimit: real, stopPrice: real, takeProfit: Option<real>, parentId: int,
                      tickSize: real)
    returns (r: Result<seq<BracketLeg>, BracketError>)
    ensures r == Bracket(qty, entryLimit, stopPrice, takeProfit, parentId, tickSize)
    ensures r.Ok? ==> ProtectedBracket(r.value, qty, parentId)
    ensures r.Ok? && tickSize == DEFAULT_TICK_SIZE ==> PricedAs(r.value, entryLimit, stopPrice, takeProfit)
  {
    if tickSize == DEFAULT_TICK_SIZE {
      LegsAreOnTick(qty, entryLimit, stopPrice, takeProfit, parentId);
    }
    hide PricedAs;
    if qty <= 0 {
      return Err(QtyNotPositive);
    }
    if entryLimit <= 0.0 {
      return Err(EntryNotPositive);
    }
    var entry, stop := RoundToTick(entryLimit, tickSize), RoundToTick(stopPrice, tickSize);
    if !(0.0 < stop < entry) {
      return Err(StopOutOfPlace);
    }
    var tp := if takeProfit.Some? then Some(RoundToTick(takeProfit.value, tickSize)) else None;
    if tp.Some? && tp.value <= entry {
      return Err(TakeProfitOutOfPlace);
    }
    var legs := [BracketLeg(parentId, 0, Buy, qty, Lmt, Some(entry), None, false),
                 BracketLeg(parentId + 1, parentId, Sell, qty, Stp, None, Some(stop), tp.None?)];
    if tp.Some? {
      legs := legs + [BracketLeg(parentId + 2, parentId, Sell, qty, Lmt, tp, None, true)];
    }
    assert legs == Legs(qty, entry, stop, tp, parentId);
    r := Ok(legs);
  }

  /**
   What makes a list of legs safe to send in order: one BUY; every other leg
   SELLs the same quantity against it; nothing is transmitted before the last
   leg, so no entry is ever live without its stop; and
   0 < stop < entry < take-profit.
   */
  ghost predicate ProtectedBracket(legs: seq<BracketLeg>, qty: int, parentId: int) {
    && 2 <= |legs| <= 3
    && qty > 0
    && (forall i :: 0 <= i < |legs| ==> legs[i].qty == qty && legs[i].orderId == parentId + i)
    && (forall i :: 0 <= i < |legs| ==> (legs[i].transmit <==> i == |legs| - 1))
    && (forall i :: 0 <= i < |legs| ==>
          legs[i].action == (if i == 0 then Buy else Sell) && legs[i].parentId == if i == 0 then 0 else parentId)
    && legs[0].orderType == Lmt && legs[0].limitPrice.Some?
    && legs[1].orderType == Stp && legs[1].stopPrice.Some?
    && 0.0 < legs[1].stopPrice.value < legs[0].limitPrice.value
    && (|legs| == 3 ==>
          legs[2].orderType == Lmt && legs[2].limitPrice.Some? && legs[0].limitPrice.value < legs[2].limitPrice.value)
  }

  /** How many default ticks a price rounds to. */
  function Ticks(price: real): int {
    RoundHalfEven(price / DEFAULT_TICK_SIZE)
  }

  /** The outer rounding to four decimals does not move a price off the cent grid. */
  lemma OnTheCentGrid(price: real)
    ensures RoundToTick(price, DEFAULT_TICK_SIZE) == Ticks(price) as real * DEFAULT_TICK_SIZE
  {
    var n := Ticks(price);
    assert n as real * DEFAULT_TICK_SIZE == (100 * n) as real / 10000.0;
    Round4Exact(100 * n);
  }

  /** On any tick a price goes to the nearest multiple, kept to four decimals; without a tick it stays as it is. */
  lemma RoundToTickIs(price: real, tickSize: real) returns (n: int)
    ensures tickSize <= 0.0 ==> RoundToTick(price, tickSize) == price
    ensures tickSize > 0.0 ==>
              && -0.5 <= n as real - price / tickSize <= 0.5
              && -0.00005 <= RoundToTick(price, tickSize) - n as real * tickSize <= 0.00005
  {
    n := if tickSize > 0.0 then RoundHalfEven(price / tickSize) else 0;
  }

  /** A whole number of cents, the nearest to what was asked, and the even one of two. */
  predicate NearestCent(price: real, asked: real) {
    && price * 100.0 == (price * 100.0).Floor as real
    && -0.005 <= price - asked <= 0.005
    && (price - asked == 0.005 || asked - price == 0.005 ==> (price * 100.0).Floor % 2 == 0)
  }

  lemma OnNearestCent(asked: real)
    ensures NearestCent(RoundToTick(asked, DEFAULT_TICK_SIZE), asked)
  {
    OnTheCentGrid(asked);
    var n := Ticks(asked);
    assert asked / DEFAULT_TICK_SIZE == asked * 100.0;
    assert RoundToTick(asked, DEFAULT_TICK_SIZE) * 100.0 == n as real;
  }

  /**
   Each leg carries the price asked for it and no other: the entry a limit, the
   stop a stop price, the target, if there is one, a limit, each at its nearest cent.
   */
  predicate PricedAs(legs: seq<BracketLeg>, entryLimit: real, stopPrice: real, takeProfit: Option<real>) {
    && |legs| == (if takeProfit.Some? then 3 else 2)
    && legs[0].orderType == Lmt && legs[0].limitPrice.Some? && legs[0].stopPrice.None?
    && NearestCent(legs[0].limitPrice.value, entryLimit)
    && legs[1].orderType == Stp && legs[1].stopPrice.Some? && legs[1].limitPrice.None?
    && NearestCent(legs[1].stopPrice.value, stopPrice)
    && (takeProfit.Some? ==>
        && legs[2].orderType == Lmt && legs[2].limitPrice.Some? && legs[2].stopPrice.None?
        && NearestCent(legs[2].limitPrice.value, takeProfit.value))
  }

  lemma LegsAreOnTick(qty: int, entryLimit: real, stopPrice: real, takeProfit: Option<real>, parentId: int)
    ensures
      var r := Bracket(qty, entryLimit, stopPrice, takeProfit, parentId, DEFAULT_TICK_SIZE);
      r.Ok? ==> PricedAs(r.value, entryLimit, stopPrice, takeProfit)
  {
    OnNearestCent(entryLimit);
    OnNearestCent(stopPrice);
    if takeProfit.Some? {
      OnNearestCent(takeProfit.value);
    }
    hide RoundToTick, NearestCent;
  }

  /** Which guard refuses a bracket on the default grid, in whole ticks. */
  lemma RefusedIff(qty: int, entryLimit: real, stopPrice: real, takeProfit: Option<real>, parentId: int)
    ensures
      var r := Bracket(qty, entryLimit, stopPrice, takeProfit, parentId, DEFAULT_TICK_SIZE);
      var entry, stop := Ticks(entryLimit), Ticks(stopPrice);
      && (r == Err(QtyNotPositive) <==> qty <= 0)
      && (r == Err(EntryNotPositive) <==> qty > 0 && entryLimit <= 0.0)
      && (r == Err(StopOutOfPlace) <==> qty > 0 && entryLimit > 0.0 && (stop < 1 || stop >= entry))
      && (r == Err(TakeProfitOutOfPlace) <==>
          qty > 0 && entryLimit > 0.0 && 1 <= stop < entry && takeProfit.Some? && Ticks(takeProfit.value) <= entry)
  {
    OnTheCentGrid(entryLimit);
    OnTheCentGrid(stopPrice);
    if takeProfit.Some? {
      OnTheCentGrid(takeProfit.value);
    }
    hide RoundToTick, Ticks;
  }

  /** On the default grid, acceptance is the strict order of whole tick counts. */
  lemma AcceptedIff(qty: int, entryLimit: real, stopPrice: real, takeProfit: Option<real>, parentId: int)
    ensures
      Bracket(qty, entryLimit, stopPrice, takeProfit, parentId, DEFAULT_TICK_SIZE).Ok? <==>
      && qty > 0
      && 1 <= Ticks(stopPrice) < Ticks(entryLimit)
      && (takeProfit.Some? ==> Ticks(entryLimit) < Ticks(takeProfit.value))
  {
    OnTheCentGrid(entryLimit);
    OnTheCentGrid(stopPrice);
    if takeProfit.Some? {
      OnTheCentGrid(takeProfit.value);
    }
  }

  /** Ticks of a price first rounded to four decimals, as an order request is. */
  function OrderTicks(price: real): int {
    Ticks(Round4(price))
  }

  /** More than a tick and two half-roundings apart stays apart. */
  lemma GapSurvivesRounding(low: real, high: real)
    requires high - low > DEFAULT_TICK_SIZE + 0.0001
    ensures OrderTicks(low) < OrderTicks(high)
  {
    assert Round4(high) / DEFAULT_TICK_SIZE - Round4(low) / DEFAULT_TICK_SIZE > 1.0;
  }

  /** The least price that survives both roundings: just above 0.00505. */
  lemma PositiveTicksIff(price: real)
    ensures OrderTicks(price) >= 1 <==> price > 0.00505
  {
    var hundredths := Round4(price) * 100.0;
    assert Round4(price) / DEFAULT_TICK_SIZE == hundredths;
    var n := RoundHalfEven(price * 10000.0);
    assert Round4(price) == n as real / 10000.0;
    assert n >= 51 <==> price > 0.00505;
    assert hundredths == n as real / 100.0;
    assert RoundHalfEven(hundredths) >= 1 <==> hundredths > 0.5;
  }

  /** The two roundings together move a price by at most 0.00505. */
  lemma RoundingsMove(price: real)
    ensures -0.00505 <= RoundToTick(Round4(price), DEFAULT_TICK_SIZE) - price <= 0.00505
  {
    OnTheCentGrid(Round4(price));
    assert Round4(price) / DEFAULT_TICK_SIZE == Round4(price) * 100.0;
  }
}
