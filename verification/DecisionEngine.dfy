/**
 From a scored deal and a price snapshot to a trade request
 (src/trading/decision_engine.py). The random trade id is an argument.
 */
module DecisionEngine {
  import opened Common
  import opened Rounding
  import opened PositionSizing
  import opened Products
  import BracketBuilder

  datatype TradingConfig = TradingConfig(
    minSpreadPct: real, entryOffsetQuoted: real, entryOffsetLast: real, stopLossPct: real,
    minScoreStars: int, rampupRequired: int)

  const DEFAULT_CONFIG := TradingConfig(0.01, 0.001, 0.004, 0.10, 3, 5)

  /** A missing quote is None. */
  datatype PriceSnapshot = PriceSnapshot(bid: Option<real>, ask: Option<real>, last: Option<real>, priceSource: string)
  {
    function Mid(): Option<real> {
      if bid.Some? && ask.Some? then Some((bid.value + ask.value) / 2.0) else None
    }
  }

  datatype DealCandidate = DealCandidate(
    dealId: int, targetName: string, acquirerName: string, juridiction: string, offerPrice: Option<real>,
    pCompletion: real, scoreStars: int, symbol: Option<string>, exchange: Option<string>, isin: Option<string>,
    currency: string)

  datatype TradeRequest = TradeRequest(
    tradeId: string, dealId: int, dealTarget: string, dealAcquirer: string, side: BracketBuilder.Action, quantity: int,
    symbol: Option<string>, exchange: Option<string>, isin: Option<string>, currency: string,
    limitPrice: real, stopLossPrice: real, takeProfitPrice: Option<real>,
    expectedPCompletion: real, expectedReturnPct: real, kellyFractionalPct: real, positionPct: real,
    requiresApproval: bool, priceSource: string, scoreStars: int)

  /** Python's `a or b` on optional numbers: a zero counts as absent. */
  function OrElse(a: Option<real>, b: Option<real>): Option<real> {
    if a.Some? && a.value != 0.0 then a else b
  }

  function ReferencePrice(snapshot: PriceSnapshot, juridiction: string): Option<real> {
    if juridiction == "IT" then OrElse(snapshot.last, snapshot.Mid()) else OrElse(snapshot.Mid(), snapshot.last)
  }

  function EntryOffset(juridiction: string, cfg: TradingConfig): real {
    if juridiction == "IT" then cfg.entryOffsetLast else cfg.entryOffsetQuoted
  }

  function EntryLimitPrice(reference: real, juridiction: string, cfg: TradingConfig): real {
    reference * (1.0 + EntryOffset(juridiction, cfg))
  }

  function StopPrice(limitPrice: real, cfg: TradingConfig): real {
    limitPrice * (1.0 - cfg.stopLossPct)
  }

  function ComputeSpread(offerPrice: real, reference: real): real
    requires reference != 0.0
  {
    (offerPrice - reference) / reference
  }

  function EvaluateCandidate(candidate: DealCandidate, snapshot: PriceSnapshot, netLiquidation: real,
                             openPositions: int, rampupValidated: int, cfg: TradingConfig, tradeId: string)
    : Option<TradeRequest>
  {
    var reference := ReferencePrice(snapshot, candidate.juridiction);
    if candidate.scoreStars < cfg.minScoreStars then None
    else if candidate.offerPrice.None? || candidate.offerPrice.value <= 0.0 then None
    else if reference.None? || reference.value <= 0.0 then None
    else
      var offer := candidate.offerPrice.value;
      var spread := ComputeSpread(offer, reference.value);
      if spread < cfg.minSpreadPct then None
      else
        var limitPrice := EntryLimitPrice(reference.value, candidate.juridiction, cfg);
        var sizing := Size(candidate.pCompletion, spread, limitPrice, netLiquidation, openPositions);
        if !sizing.Tradeable() then None
        else
          Some(TradeRequest(
                 tradeId, candidate.dealId, candidate.targetName, candidate.acquirerName, BracketBuilder.Buy,
                 sizing.sizeQty, candidate.symbol, candidate.exchange, candidate.isin, candidate.currency,
                 Round4(limitPrice), Round4(StopPrice(limitPrice, cfg)), Some(Round4(offer)),
                 candidate.pCompletion, Round6(spread), Round6(sizing.kellyFractional), Round6(sizing.positionPct),
                 rampupValidated < cfg.rampupRequired, snapshot.priceSource, candidate.scoreStars))
  }

  // ----- a decision in plain numbers

  predicate Known(price: Option<real>) {
    price.Some? && price.value != 0.0
  }

  /**
   The price a deal is measured at: in Italy the last price, and the middle of
   bid and ask without one; elsewhere the other way round.
   */
  predicate IsReference(snapshot: PriceSnapshot, juridiction: string, price: real) {
    var middle := snapshot.bid.Some? && snapshot.ask.Some? && 2.0 * price == snapshot.bid.value + snapshot.ask.value;
    var quoted := snapshot.bid.Some? && snapshot.ask.Some? && snapshot.bid.value + snapshot.ask.value != 0.0;
    if juridiction == "IT" then if Known(snapshot.last) then price == snapshot.last.value else middle
    else if quoted then middle else snapshot.last == Some(price)
  }

  lemma ReferenceIs(snapshot: PriceSnapshot, juridiction: string, price: real)
    ensures ReferencePrice(snapshot, juridiction) == Some(price) <==> IsReference(snapshot, juridiction, price)
  {
  }

  /** The unrounded limit: the reference and 0.4% of it in Italy, 0.1% elsewhere, as shipped. */
  predicate IsLimit(cfg: TradingConfig, juridiction: string, reference: real, limit: real) {
    limit == reference + reference * if juridiction == "IT" then cfg.entryOffsetLast else cfg.entryOffsetQuoted
  }

  /** What a request takes over from the candidate, the snapshot and the ramp-up. */
  predicate TakesOver(candidate: DealCandidate, snapshot: PriceSnapshot, rampup: int, cfg: TradingConfig,
                      tradeId: string, request: TradeRequest)
  {
    && request.tradeId == tradeId && request.dealId == candidate.dealId && request.side == BracketBuilder.Buy
    && request.dealTarget == candidate.targetName && request.dealAcquirer == candidate.acquirerName
    && request.symbol == candidate.symbol && request.exchange == candidate.exchange && request.isin == candidate.isin
    && request.currency == candidate.currency && request.expectedPCompletion == candidate.pCompletion
    && request.priceSource == snapshot.priceSource && request.scoreStars == candidate.scoreStars
    && (request.requiresApproval <==> rampup < cfg.rampupRequired)
  }

  /**
   When a candidate with an offer and a price is decided, and what is asked for:
   the most whole shares that the Kelly share of the clamped capital buys at the
   unrounded limit, with a stop the stop fraction under it and the offer as target.
   */
  lemma EvaluateExactly(candidate: DealCandidate, snapshot: PriceSnapshot, nlv: real, open: int, rampup: int,
                        cfg: TradingConfig, tradeId: string,
                        offer: real, reference: real, spread: real, limit: real, fraction: real, share: real,
                        cap: real)
    requires candidate.offerPrice == Some(offer)
    requires IsReference(snapshot, candidate.juridiction, reference) && 0.0 < reference
    requires spread * reference == offer - reference && IsLimit(cfg, candidate.juridiction, reference, limit)
    requires spread > 0.0 ==> fraction * spread == 0.15 * Edge(candidate.pCompletion, spread)
    requires IsKellyShare(candidate.pCompletion, spread, share) && IsClamped(nlv, cap)
    ensures
      var d := EvaluateCandidate(candidate, snapshot, nlv, open, rampup, cfg, tradeId);
      && (d.Some? <==>
          && candidate.scoreStars >= cfg.minScoreStars && 0.0 < offer && spread >= cfg.minSpreadPct
          && open < 5 && 0.0 < limit <= share * cap && 1000.0 <= share * cap)
      && (d.Some? ==>
          && TakesOver(candidate, snapshot, rampup, cfg, tradeId, d.value)
          && d.value.quantity >= 1
          && d.value.quantity as real * limit <= share * cap < d.value.quantity as real * limit + limit
          && d.value.limitPrice == Round4(limit) && d.value.stopLossPrice == Round4(limit - cfg.stopLossPct * limit)
          && d.value.takeProfitPrice == Some(Round4(offer))
          && d.value.expectedReturnPct == Round6(spread) && d.value.positionPct == Round6(share)
          && d.value.kellyFractionalPct == Round6(fraction))
  {
    hide *;
    ReferenceIs(snapshot, candidate.juridiction, reference);
    SpreadIs(offer, reference, spread);
    LimitIs(cfg, candidate.juridiction, reference, limit);
    SizeExactly(candidate.pCompletion, spread, limit, nlv, open, share, cap);
    StopIs(limit, cfg);
    EvaluateUnfolded(candidate, snapshot, nlv, open, rampup, cfg, tradeId, offer, reference);
    TradeableExactly(candidate.pCompletion, spread, limit, nlv, open, share, cap);
    var sizing := Size(candidate.pCompletion, spread, limit, nlv, open);
    if sizing.Tradeable() && spread > 0.0 {
      TimesIsProduct(sizing.kellyFractional, spread);
      TimesIsProduct(fraction, spread);
      Cancel(sizing.kellyFractional, fraction, spread);
    }
  }

  lemma EvaluateUnfolded(candidate: DealCandidate, snapshot: PriceSnapshot, nlv: real, open: int, rampup: int,
                         cfg: TradingConfig, tradeId: string, offer: real, reference: real)
    requires candidate.offerPrice == Some(offer) && 0.0 < reference
    requires ReferencePrice(snapshot, candidate.juridiction) == Some(reference)
    ensures
      var d := EvaluateCandidate(candidate, snapshot, nlv, open, rampup, cfg, tradeId);
      var spread, limit := ComputeSpread(offer, reference), EntryLimitPrice(reference, candidate.juridiction, cfg);
      var sizing := Size(candidate.pCompletion, spread, limit, nlv, open);
      && (d.Some? <==>
          candidate.scoreStars >= cfg.minScoreStars && 0.0 < offer && spread >= cfg.minSpreadPct && sizing.Tradeable())
      && (d.Some? ==>
          && TakesOver(candidate, snapshot, rampup, cfg, tradeId, d.value)
          && d.value.quantity == sizing.sizeQty && d.value.limitPrice == Round4(limit)
          && d.value.stopLossPrice == Round4(StopPrice(limit, cfg)) && d.value.takeProfitPrice == Some(Round4(offer))
          && d.value.expectedReturnPct == Round6(spread) && d.value.positionPct == Round6(sizing.positionPct)
          && d.value.kellyFractionalPct == Round6(sizing.kellyFractional))
  {
    hide Size, ComputeSpread, EntryLimitPrice, StopPrice, ReferencePrice, Round4, Round6;
  }

  lemma TradeableExactly(p: real, spread: real, limit: real, nlv: real, open: int, share: real, cap: real)
    requires IsKellyShare(p, spread, share) && IsClamped(nlv, cap)
    ensures Size(p, spread, limit, nlv, open).Tradeable() <==>
      open < 5 && 0.0 < limit <= share * cap && 1000.0 <= share * cap
  {
    SizeExactly(p, spread, limit, nlv, open, share, cap);
    TimesIsProduct(share, cap);
    TimesOne(cap);
    hide Size, IsKellyShare, IsClamped, Times;
  }

  lemma SpreadIs(offer: real, reference: real, spread: real)
    requires 0.0 < reference && spread * reference == offer - reference
    ensures ComputeSpread(offer, reference) == spread
  {
    TimesIsProduct(spread, reference);
    TimesIsProduct(ComputeSpread(offer, reference), reference);
    TimesQuotient(offer - reference, reference);
    Cancel(ComputeSpread(offer, reference), spread, reference);
  }

  lemma LimitIs(cfg: TradingConfig, juridiction: string, reference: real, limit: real)
    requires IsLimit(cfg, juridiction, reference, limit)
    ensures EntryLimitPrice(reference, juridiction, cfg) == limit
  {
  }

  lemma StopIs(limit: real, cfg: TradingConfig)
    ensures StopPrice(limit, cfg) == limit - cfg.stopLossPct * limit
  {
  }

  /** Without an offer or a positive price nothing is decided. */
  lemma NoPriceNoDecision(candidate: DealCandidate, snapshot: PriceSnapshot, nlv: real, open: int, rampup: int,
                          cfg: TradingConfig, tradeId: string)
    requires EvaluateCandidate(candidate, snapshot, nlv, open, rampup, cfg, tradeId).Some?
    ensures candidate.offerPrice.Some?
    ensures exists reference :: 0.0 < reference && IsReference(snapshot, candidate.juridiction, reference)
  {
    hide Size, EntryLimitPrice, StopPrice, Round4, Round6, ReferencePrice, IsReference;
    var reference := ReferencePrice(snapshot, candidate.juridiction).value;
    ReferenceIs(snapshot, candidate.juridiction, reference);
    assert 0.0 < reference && IsReference(snapshot, candidate.juridiction, reference);
  }

  /** Execution feeds back into decisions only through the position cap. */
  lemma OnlyTheCapMatters(candidate: DealCandidate, snapshot: PriceSnapshot, nlv: real, open: int, open': int,
                          rampup: int, cfg: TradingConfig, tradeId: string)
    requires open <= open'
    ensures
      var before := EvaluateCandidate(candidate, snapshot, nlv, open, rampup, cfg, tradeId);
      var after := EvaluateCandidate(candidate, snapshot, nlv, open', rampup, cfg, tradeId);
      && (open' < MAX_CONCURRENT_POSITIONS ==> after == before)
      && (open' >= MAX_CONCURRENT_POSITIONS ==> after == None)
  {
  }

  // ----- sizing seen through a decision

  /** The shares a decision asks for; no decision asks for none. */
  function Quantity(request: Option<TradeRequest>): int {
    if request.Some? then request.value.quantity else 0
  }

  /** Nobody is asked to buy more because the price went up. */
  lemma QuantityFallsWithReference(candidate: DealCandidate, low: PriceSnapshot, high: PriceSnapshot, nlv: real,
                                   open: int, rampup: int, cfg: TradingConfig, tradeId: string)
    requires 0.0 <= candidate.pCompletion <= 1.0
    requires
      var r, r' := ReferencePrice(low, candidate.juridiction), ReferencePrice(high, candidate.juridiction);
      r.Some? && r'.Some? && 0.0 < r.value <= r'.value
    ensures
      Quantity(EvaluateCandidate(candidate, high, nlv, open, rampup, cfg, tradeId)) <=
      Quantity(EvaluateCandidate(candidate, low, nlv, open, rampup, cfg, tradeId))
  {
    hide Size;
    var r, r' := ReferencePrice(low, candidate.juridiction).value, ReferencePrice(high, candidate.juridiction).value;
    if EvaluateCandidate(candidate, high, nlv, open, rampup, cfg, tradeId).Some? {
      SizingFallsWithReference(candidate.pCompletion, candidate.offerPrice.value, r, r',
                               candidate.juridiction, cfg, nlv, open);
    }
    QuantityNotNegative(candidate, low, nlv, open, rampup, cfg, tradeId);
  }

  lemma SizingFallsWithReference(p: real, offer: real, r: real, r': real, juridiction: string, cfg: TradingConfig,
                                 nlv: real, open: int)
    requires 0.0 <= p <= 1.0 && 0.0 < offer && 0.0 < r <= r'
    requires Size(p, ComputeSpread(offer, r'), EntryLimitPrice(r', juridiction, cfg), nlv, open).Tradeable()
    ensures ComputeSpread(offer, r') <= ComputeSpread(offer, r)
    ensures
      var before := Size(p, ComputeSpread(offer, r), EntryLimitPrice(r, juridiction, cfg), nlv, open);
      var after := Size(p, ComputeSpread(offer, r'), EntryLimitPrice(r', juridiction, cfg), nlv, open);
      before.Tradeable() && after.sizeQty <= before.sizeQty
  {
    hide *;
    var er, er' := ComputeSpread(offer, r), ComputeSpread(offer, r');
    var price, price' := EntryLimitPrice(r, juridiction, cfg), EntryLimitPrice(r', juridiction, cfg);
    SpreadFalls(offer, r, r');
    SizeGuardrails(p, er', price', nlv, open);
    LimitRises(r, r', juridiction, cfg);
    SizeMonotone(p, p, er', er, price', price, nlv, open);
  }

  lemma QuantityNotNegative(candidate: DealCandidate, snapshot: PriceSnapshot, nlv: real, open: int, rampup: int,
                            cfg: TradingConfig, tradeId: string)
    ensures 0 <= Quantity(EvaluateCandidate(candidate, snapshot, nlv, open, rampup, cfg, tradeId))
  {
  }

  lemma SpreadFalls(offer: real, r: real, r': real)
    requires 0.0 < offer && 0.0 < r <= r'
    ensures ComputeSpread(offer, r') <= ComputeSpread(offer, r)
  {
    Quotient(offer, offer, r, r');
    SpreadIsRatio(offer, r);
    SpreadIsRatio(offer, r');
  }

  lemma SpreadIsRatio(offer: real, r: real)
    requires 0.0 < r
    ensures ComputeSpread(offer, r) == offer / r - 1.0
  {
    var ratio := offer / r;
    assert ratio * r == offer;
    assert (ratio - 1.0) * r == offer - r;
    Cancel(ratio - 1.0, ComputeSpread(offer, r), r);
  }

  lemma LimitRises(r: real, r': real, juridiction: string, cfg: TradingConfig)
    requires 0.0 < r <= r' && 0.0 < EntryLimitPrice(r', juridiction, cfg)
    ensures 0.0 < EntryLimitPrice(r, juridiction, cfg) <= EntryLimitPrice(r', juridiction, cfg)
  {
    var factor := 1.0 + EntryOffset(juridiction, cfg);
    if factor <= 0.0 {
      Scale(factor, 0.0, r');
    }
    Scale(0.0, factor, r);
    Scale(r, r', factor);
  }

  /** Nobody is asked to buy less because completion became likelier. */
  lemma QuantityGrowsWithProbability(candidate: DealCandidate, p': real, snapshot: PriceSnapshot, nlv: real,
                                     open: int, rampup: int, cfg: TradingConfig, tradeId: string)
    requires 0.0 <= candidate.pCompletion <= p' <= 1.0
    ensures
      Quantity(EvaluateCandidate(candidate, snapshot, nlv, open, rampup, cfg, tradeId)) <=
      Quantity(EvaluateCandidate(candidate.(pCompletion := p'), snapshot, nlv, open, rampup, cfg, tradeId))
  {
    var before := EvaluateCandidate(candidate, snapshot, nlv, open, rampup, cfg, tradeId);
    if before.Some? {
      var r, p := ReferencePrice(snapshot, candidate.juridiction).value, candidate.pCompletion;
      var er := ComputeSpread(candidate.offerPrice.value, r);
      var price := EntryLimitPrice(r, candidate.juridiction, cfg);
      SizeGuardrails(p, er, price, nlv, open);
      SizeMonotone(p, p', er, er, price, price, nlv, open);
    }
    QuantityNotNegative(candidate.(pCompletion := p'), snapshot, nlv, open, rampup, cfg, tradeId);
  }

  /** The unrounded limit price a decision was sized at. */
  function SizedAt(candidate: DealCandidate, snapshot: PriceSnapshot, cfg: TradingConfig): real
    requires ReferencePrice(snapshot, candidate.juridiction).Some?
  {
    EntryLimitPrice(ReferencePrice(snapshot, candidate.juridiction).value, candidate.juridiction, cfg)
  }

  /** What a request says about prices, and why it was made. */
  lemma RequestOrigin(candidate: DealCandidate, snapshot: PriceSnapshot, nlv: real, open: int, rampup: int,
                      cfg: TradingConfig, tradeId: string, request: TradeRequest)
    requires EvaluateCandidate(candidate, snapshot, nlv, open, rampup, cfg, tradeId) == Some(request)
    ensures ReferencePrice(snapshot, candidate.juridiction).Some? && candidate.offerPrice.Some?
    ensures
      var reference, limit := ReferencePrice(snapshot, candidate.juridiction).value, SizedAt(candidate, snapshot, cfg);
      var sizing := Size(candidate.pCompletion, ComputeSpread(candidate.offerPrice.value, reference), limit, nlv, open);
      && 0.0 < reference && cfg.minSpreadPct <= ComputeSpread(candidate.offerPrice.value, reference)
      && sizing.Tradeable() && request.quantity == sizing.sizeQty
      && request.limitPrice == Round4(limit)
      && request.stopLossPrice == Round4(StopPrice(limit, cfg))
      && request.takeProfitPrice == Some(Round4(candidate.offerPrice.value))
  {
    hide Size, ComputeSpread, EntryLimitPrice, StopPrice, Round4, Round6;
  }

  /**
   A decision buys the most whole shares its Kelly budget allows. At the price
   it was sized at it stays within 12% of the clamped capital, uses more than
   half of the minimum position, and loses at most the stop fraction of that
   12% when it is stopped out.
   */
  lemma DecisionGuardrails(candidate: DealCandidate, snapshot: PriceSnapshot, nlv: real, open: int, rampup: int,
                           cfg: TradingConfig, tradeId: string, request: TradeRequest)
    requires EvaluateCandidate(candidate, snapshot, nlv, open, rampup, cfg, tradeId) == Some(request)
    requires 0.0 <= cfg.stopLossPct
    ensures ReferencePrice(snapshot, candidate.juridiction).Some?
    ensures
      var reference := ReferencePrice(snapshot, candidate.juridiction).value;
      var limit := SizedAt(candidate, snapshot, cfg);
      var notional := request.quantity as real * limit;
      var cap := EffectiveCapital(nlv);
      && 0.0 < reference && 0.0 < limit && request.quantity >= 1
      && notional <= Budget(candidate.pCompletion, ComputeSpread(candidate.offerPrice.value, reference), nlv)
                  < notional + limit
      && MIN_POSITION_EUR / 2.0 < notional <= MAX_POSITION_PCT * cap
      && request.quantity as real * (limit - StopPrice(limit, cfg)) <= cfg.stopLossPct * (MAX_POSITION_PCT * cap)
  {
    hide *;
    RequestOrigin(candidate, snapshot, nlv, open, rampup, cfg, tradeId, request);
    var reference := ReferencePrice(snapshot, candidate.juridiction).value;
    var er := ComputeSpread(candidate.offerPrice.value, reference);
    var limit := SizedAt(candidate, snapshot, cfg);
    BudgetWithinCap(candidate.pCompletion, er, nlv);
    SizeGuardrails(candidate.pCompletion, er, limit, nlv, open);
    GuardrailsUnfolded(Size(candidate.pCompletion, er, limit, nlv, open), limit,
                       Budget(candidate.pCompletion, er, nlv));
    StopOut(request.quantity as real, limit, cfg, MAX_POSITION_PCT * EffectiveCapital(nlv));
  }

  lemma GuardrailsUnfolded(r: PositionSize, limit: real, budget: real)
    requires r.Tradeable() && WithinGuardrails(r, limit, budget)
    ensures r.sizeQty >= 1 && r.sizeQty as real * limit <= budget < r.sizeQty as real * limit + limit
    ensures MIN_POSITION_EUR / 2.0 < r.sizeQty as real * limit
  {
  }

  lemma StopOut(q: real, limit: real, cfg: TradingConfig, bound: real)
    requires q * limit <= bound && 0.0 <= cfg.stopLossPct
    ensures q * (limit - StopPrice(limit, cfg)) <= cfg.stopLossPct * bound
  {
    Scale(q * limit, bound, cfg.stopLossPct);
    assert q * (limit - StopPrice(limit, cfg)) == (q * limit) * cfg.stopLossPct;
  }

  // ----- does the broker-side bracket accept a decision?

  function RequestBracket(request: TradeRequest, parentId: int)
    : Result<seq<BracketBuilder.BracketLeg>, BracketBuilder.BracketError>
  {
    BracketBuilder.Bracket(request.quantity, request.limitPrice, request.stopLossPrice, request.takeProfitPrice,
                           parentId, BracketBuilder.DEFAULT_TICK_SIZE)
  }

  /**
   A decision checks none of the bracket's guards itself. Its bracket is
   accepted exactly when the stop is above 0.00505 and stop, limit and offer
   fall on three different cents, in that order, after both roundings.
   */
  lemma DecisionAcceptedIff(candidate: DealCandidate, snapshot: PriceSnapshot, nlv: real, open: int, rampup: int,
                            cfg: TradingConfig, tradeId: string, request: TradeRequest, parentId: int)
    requires EvaluateCandidate(candidate, snapshot, nlv, open, rampup, cfg, tradeId) == Some(request)
    ensures ReferencePrice(snapshot, candidate.juridiction).Some? && candidate.offerPrice.Some?
    ensures
      var limit := SizedAt(candidate, snapshot, cfg);
      var stop := StopPrice(limit, cfg);
      RequestBracket(request, parentId).Ok? <==>
      && stop > 0.00505
      && BracketBuilder.OrderTicks(stop) < BracketBuilder.OrderTicks(limit)
      && BracketBuilder.OrderTicks(limit) < BracketBuilder.OrderTicks(candidate.offerPrice.value)
  {
    hide Size, ComputeSpread, EntryLimitPrice, StopPrice, EvaluateCandidate, BracketBuilder.Bracket,
        BracketBuilder.Ticks, Round4;
    RequestOrigin(candidate, snapshot, nlv, open, rampup, cfg, tradeId, request);
    var limit := SizedAt(candidate, snapshot, cfg);
    BracketBuilder.PositiveTicksIff(StopPrice(limit, cfg));
    BracketBuilder.AcceptedIff(request.quantity, request.limitPrice, request.stopLossPrice, request.takeProfitPrice,
                               parentId);
  }

  /**
   Margins a caller can check beforehand: the spread left after the entry
   offset, and the stop distance, each wider than a tick and the two four-decimal
   roundings, and a stop of at least one tick.
   */
  lemma DecisionAccepted(candidate: DealCandidate, snapshot: PriceSnapshot, nlv: real, open: int, rampup: int,
                         cfg: TradingConfig, tradeId: string, request: TradeRequest, parentId: int)
    requires EvaluateCandidate(candidate, snapshot, nlv, open, rampup, cfg, tradeId) == Some(request)
    requires ReferencePrice(snapshot, candidate.juridiction).Some?
    requires
      var reference := ReferencePrice(snapshot, candidate.juridiction).value;
      var limit := SizedAt(candidate, snapshot, cfg);
      && (cfg.minSpreadPct - EntryOffset(candidate.juridiction, cfg)) * reference
         > BracketBuilder.DEFAULT_TICK_SIZE + 0.0001
      && cfg.stopLossPct * limit > BracketBuilder.DEFAULT_TICK_SIZE + 0.0001
      && StopPrice(limit, cfg) >= BracketBuilder.DEFAULT_TICK_SIZE
    ensures
      var bracket := RequestBracket(request, parentId);
      bracket.Ok? && BracketBuilder.ProtectedBracket(bracket.value, request.quantity, parentId)
  {
    hide EvaluateCandidate, Size, ComputeSpread, ReferencePrice, EntryLimitPrice, EntryOffset, StopPrice,
         RequestBracket, BracketBuilder.OrderTicks, BracketBuilder.ProtectedBracket, Round4;
    RequestOrigin(candidate, snapshot, nlv, open, rampup, cfg, tradeId, request);
    var reference := ReferencePrice(snapshot, candidate.juridiction).value;
    var limit, offer := SizedAt(candidate, snapshot, cfg), candidate.offerPrice.value;
    var gap := BracketBuilder.DEFAULT_TICK_SIZE + 0.0001;
    OfferGap(offer, reference, candidate.juridiction, cfg, gap);
    StopGap(limit, cfg, gap);
    BracketBuilder.GapSurvivesRounding(StopPrice(limit, cfg), limit);
    BracketBuilder.GapSurvivesRounding(limit, offer);
    DecisionAcceptedIff(candidate, snapshot, nlv, open, rampup, cfg, tradeId, request, parentId);
    AcceptedIsProtected(request, parentId);
  }

  lemma OfferClearsLimit(offer: real, reference: real, juridiction: string, cfg: TradingConfig)
    requires 0.0 < reference && cfg.minSpreadPct <= ComputeSpread(offer, reference)
    ensures (cfg.minSpreadPct - EntryOffset(juridiction, cfg)) * reference
            <= offer - EntryLimitPrice(reference, juridiction, cfg)
  {
    hide ComputeSpread, EntryOffset;
    SpreadFloor(offer, reference, cfg.minSpreadPct);
    var offset := EntryOffset(juridiction, cfg);
    assert EntryLimitPrice(reference, juridiction, cfg) == reference + offset * reference;
    assert (cfg.minSpreadPct - offset) * reference == cfg.minSpreadPct * reference - offset * reference;
  }

  lemma OfferGap(offer: real, reference: real, juridiction: string, cfg: TradingConfig, gap: real)
    requires 0.0 < reference && cfg.minSpreadPct <= ComputeSpread(offer, reference)
    requires (cfg.minSpreadPct - EntryOffset(juridiction, cfg)) * reference > gap
    ensures offer - EntryLimitPrice(reference, juridiction, cfg) > gap
  {
    hide ComputeSpread, EntryOffset, EntryLimitPrice;
    OfferClearsLimit(offer, reference, juridiction, cfg);
  }

  lemma StopGap(limit: real, cfg: TradingConfig, gap: real)
    requires cfg.stopLossPct * limit > gap
    ensures limit - StopPrice(limit, cfg) > gap
  {
    assert limit - StopPrice(limit, cfg) == cfg.stopLossPct * limit;
  }

  lemma SpreadFloor(offer: real, reference: real, minSpread: real)
    requires 0.0 < reference && minSpread <= ComputeSpread(offer, reference)
    ensures reference + minSpread * reference <= offer
  {
    Scale(minSpread, ComputeSpread(offer, reference), reference);
    assert ComputeSpread(offer, reference) * reference == offer - reference;
  }

  lemma AcceptedIsProtected(request: TradeRequest, parentId: int)
    requires RequestBracket(request, parentId).Ok?
    ensures BracketBuilder.ProtectedBracket(RequestBracket(request, parentId).value, request.quantity, parentId)
  {
  }

  lemma AcceptedHasQuantity(request: TradeRequest, parentId: int)
    requires RequestBracket(request, parentId).Ok?
    ensures request.quantity > 0
  {
  }

  /** With the shipped settings every price from 1.13 (from 1.69 in Italy) is safe. */
  lemma DefaultConfigAccepted(candidate: DealCandidate, snapshot: PriceSnapshot, nlv: real, open: int, rampup: int,
                              tradeId: string, request: TradeRequest, parentId: int)
    requires EvaluateCandidate(candidate, snapshot, nlv, open, rampup, DEFAULT_CONFIG, tradeId) == Some(request)
    requires
      var reference := ReferencePrice(snapshot, candidate.juridiction);
      reference.Some? && reference.value >= if candidate.juridiction == "IT" then 1.69 else 1.13
    ensures RequestBracket(request, parentId).Ok?
  {
    hide EvaluateCandidate, RequestBracket, ReferencePrice, BracketBuilder.ProtectedBracket;
    DecisionAccepted(candidate, snapshot, nlv, open, rampup, DEFAULT_CONFIG, tradeId, request, parentId);
  }

  /** Below that the two modules can disagree: a sure deal at 0.50 against 0.505 is decided, and its bracket refused. */
  lemma DecisionCanBeRefused() returns (candidate: DealCandidate, snapshot: PriceSnapshot, request: TradeRequest)
    ensures EvaluateCandidate(candidate, snapshot, 100000.0, 0, 5, DEFAULT_CONFIG, "t") == Some(request)
    ensures forall parentId :: RequestBracket(request, parentId) == Err(BracketBuilder.TakeProfitOutOfPlace)
  {
    candidate := DealCandidate(1, "Target", "Bidder", "FR", Some(0.505), 1.0, 5, Some("T"), Some("SBF"), None, "EUR");
    snapshot := PriceSnapshot(None, None, Some(0.5), "yfinance_close");
    var limit := 0.5005;
    assert EntryLimitPrice(0.5, "FR", DEFAULT_CONFIG) == limit;
    assert ComputeSpread(0.505, 0.5) == 0.01;
    assert ComputeKelly(1.0, 0.01).positionPct == 0.12;
    assert Budget(1.0, 0.01, 100000.0) == 12000.0;
    SizeGuardrails(1.0, 0.01, limit, 100000.0, 0);
    assert EvaluateCandidate(candidate, snapshot, 100000.0, 0, 5, DEFAULT_CONFIG, "t").Some?;
    request := EvaluateCandidate(candidate, snapshot, 100000.0, 0, 5, DEFAULT_CONFIG, "t").value;
    Refused(request);
  }

  lemma Refused(request: TradeRequest)
    requires request.quantity > 0 && request.limitPrice == Round4(0.5005)
    requires request.stopLossPrice == Round4(0.45045) && request.takeProfitPrice == Some(Round4(0.505))
    ensures forall parentId :: RequestBracket(request, parentId) == Err(BracketBuilder.TakeProfitOutOfPlace)
  {
    RoundHalfEvenUnique(0.5005 * 10000.0, 5005);
    RoundHalfEvenUnique(0.505 * 10000.0, 5050);
    RoundHalfEvenUnique(0.45045 * 10000.0, 4504);
    BracketBuilder.OnTheCentGrid(request.limitPrice);
    BracketBuilder.OnTheCentGrid(request.stopLossPrice);
    BracketBuilder.OnTheCentGrid(request.takeProfitPrice.value);
    RoundHalfEvenUnique(request.limitPrice / 0.01, 50);
    RoundHalfEvenUnique(request.takeProfitPrice.value / 0.01, 50);
    RoundHalfEvenUnique(request.stopLossPrice / 0.01, 45);
  }

  // ----- the order that is sent is not the order that was sized

  /** What the broker is asked to pay: quantity times limit of the entry leg that is sent. */
  function OrderNotional(legs: seq<BracketBuilder.BracketLeg>): real
    requires legs != [] && legs[0].limitPrice.Some?
  {
    legs[0].qty as real * legs[0].limitPrice.value
  }

  /** The bracket of a decision, leg by leg: each price within 0.00505 of the unrounded one. */
  lemma DecisionLegs(candidate: DealCandidate, snapshot: PriceSnapshot, nlv: real, open: int, rampup: int,
                     cfg: TradingConfig, tradeId: string, request: TradeRequest, parentId: int)
    requires EvaluateCandidate(candidate, snapshot, nlv, open, rampup, cfg, tradeId) == Some(request)
    requires RequestBracket(request, parentId).Ok?
    ensures ReferencePrice(snapshot, candidate.juridiction).Some? && candidate.offerPrice.Some?
    ensures
      var legs, limit := RequestBracket(request, parentId).value, SizedAt(candidate, snapshot, cfg);
      && BracketBuilder.PricedAs(legs, request.limitPrice, request.stopLossPrice, request.takeProfitPrice)
      && |legs| == 3
      && (forall i :: 0 <= i < 3 ==> legs[i].qty == request.quantity)
      && -0.00505 <= legs[0].limitPrice.value - limit <= 0.00505
      && -0.00505 <= legs[1].stopPrice.value - (limit - cfg.stopLossPct * limit) <= 0.00505
      && -0.00505 <= legs[2].limitPrice.value - candidate.offerPrice.value <= 0.00505
  {
    hide EvaluateCandidate, Size, ComputeSpread, EntryLimitPrice, StopPrice, ReferencePrice, Round4,
         BracketBuilder.RoundToTick, BracketBuilder.NearestCent;
    RequestOrigin(candidate, snapshot, nlv, open, rampup, cfg, tradeId, request);
    var limit := SizedAt(candidate, snapshot, cfg);
    StopIs(limit, cfg);
    BracketBuilder.LegsAreOnTick(request.quantity, request.limitPrice, request.stopLossPrice, request.takeProfitPrice,
                                 parentId);
    BracketBuilder.RoundingsMove(limit);
    BracketBuilder.RoundingsMove(StopPrice(limit, cfg));
    BracketBuilder.RoundingsMove(candidate.offerPrice.value);
  }

  /** The Kelly budget a candidate is sized with. */
  function DecisionBudget(candidate: DealCandidate, snapshot: PriceSnapshot, nlv: real): real
    requires ReferencePrice(snapshot, candidate.juridiction).Some? && candidate.offerPrice.Some?
    requires ReferencePrice(snapshot, candidate.juridiction).value != 0.0
  {
    Budget(candidate.pCompletion,
           ComputeSpread(candidate.offerPrice.value, ReferencePrice(snapshot, candidate.juridiction).value), nlv)
  }

  /** The shares a decision asks for, at the unrounded price it was sized at. */
  lemma QuantityIsShares(candidate: DealCandidate, snapshot: PriceSnapshot, nlv: real, open: int, rampup: int,
                         cfg: TradingConfig, tradeId: string, request: TradeRequest)
    requires EvaluateCandidate(candidate, snapshot, nlv, open, rampup, cfg, tradeId) == Some(request)
    ensures ReferencePrice(snapshot, candidate.juridiction).Some? && candidate.offerPrice.Some?
    ensures 0.0 < ReferencePrice(snapshot, candidate.juridiction).value && 0.0 < SizedAt(candidate, snapshot, cfg)
    ensures
      var limit := SizedAt(candidate, snapshot, cfg);
      && request.quantity >= 1
      && request.quantity == Shares(DecisionBudget(candidate, snapshot, nlv), limit)
      && request.quantity as real * limit <= MAX_POSITION_PCT * EffectiveCapital(nlv)
  {
    hide EvaluateCandidate, Size, ComputeSpread, EntryLimitPrice, StopPrice, ReferencePrice, Budget, EffectiveCapital,
         Shares, Round4;
    RequestOrigin(candidate, snapshot, nlv, open, rampup, cfg, tradeId, request);
    var er := ComputeSpread(candidate.offerPrice.value, ReferencePrice(snapshot, candidate.juridiction).value);
    SizedInShares(candidate.pCompletion, er, SizedAt(candidate, snapshot, cfg), nlv, open);
    SizedWithinCap(candidate.pCompletion, er, SizedAt(candidate, snapshot, cfg), nlv, open);
  }

  lemma SizedInShares(p: real, er: real, limit: real, nlv: real, open: int)
    requires Size(p, er, limit, nlv, open).Tradeable()
    ensures 0.0 < limit
    ensures
      var q := Size(p, er, limit, nlv, open).sizeQty;
      q >= 1 && q == Shares(Budget(p, er, nlv), limit) && q as real * limit <= Budget(p, er, nlv)
  {
    hide ComputeKelly, EffectiveCapital, Budget;
  }

  lemma SizedWithinCap(p: real, er: real, limit: real, nlv: real, open: int)
    requires Size(p, er, limit, nlv, open).Tradeable()
    ensures Size(p, er, limit, nlv, open).sizeQty as real * limit <= MAX_POSITION_PCT * EffectiveCapital(nlv)
  {
    hide *;
    SizedInShares(p, er, limit, nlv, open);
    BudgetWithinCap(p, er, nlv);
  }

  lemma SharesCost(q: int, price: real, budget: real)
    requires price > 0.0
    ensures q as real * price <= budget <==> q <= Shares(budget, price)
  {
    MostCost(q, Shares(budget, price), price, budget);
  }

  lemma MostCost(q: int, most: int, price: real, budget: real)
    requires price > 0.0 && most as real * price <= budget < most as real * price + price
    ensures q as real * price <= budget <==> q <= most
  {
    TimesIsProduct(q as real, price);
    TimesIsProduct(most as real, price);
    hide Times;
    if q <= most {
      TimesScale(q as real, most as real, price);
    } else {
      TimesAdd(most as real, 1.0, price);
      TimesOne(price);
      TimesScale(most as real + 1.0, q as real, price);
    }
  }

  lemma CostWithinIff(q: int, price: real, limit: real, most: real)
    requires 1 <= q && 0.0 < limit && q as real * limit <= most
    ensures q as real * price <= most <==> (price > 0.0 ==> q <= Shares(most, price))
    ensures price <= limit ==> q as real * price <= most
  {
    hide Shares;
    if price > 0.0 {
      SharesCost(q, price, most);
    }
    if price <= limit {
      Scale(price, limit, q as real);
    }
  }

  /**
   The order sent costs at most 12% of the capital exactly when the shares
   bought with the Kelly budget at the unrounded limit are no more than 12% of
   the capital buys at the limit on the entry leg. So it always does when the
   leg's limit is not above the unrounded one.
   */
  lemma OrderWithinCapIff(candidate: DealCandidate, snapshot: PriceSnapshot, nlv: real, open: int, rampup: int,
                          cfg: TradingConfig, tradeId: string, request: TradeRequest, parentId: int)
    requires EvaluateCandidate(candidate, snapshot, nlv, open, rampup, cfg, tradeId) == Some(request)
    requires RequestBracket(request, parentId).Ok?
    ensures ReferencePrice(snapshot, candidate.juridiction).Some? && candidate.offerPrice.Some?
    ensures 0.0 < ReferencePrice(snapshot, candidate.juridiction).value && 0.0 < SizedAt(candidate, snapshot, cfg)
    ensures
      var legs, limit := RequestBracket(request, parentId).value, SizedAt(candidate, snapshot, cfg);
      var most := MAX_POSITION_PCT * EffectiveCapital(nlv);
      && legs != [] && legs[0].limitPrice.Some? && 0.0 < legs[0].limitPrice.value
      && (OrderNotional(legs) <= most <==>
          Shares(DecisionBudget(candidate, snapshot, nlv), limit) <= Shares(most, legs[0].limitPrice.value))
      && (legs[0].limitPrice.value <= limit ==> OrderNotional(legs) <= most)
  {
    hide *;
    QuantityIsShares(candidate, snapshot, nlv, open, rampup, cfg, tradeId, request);
    EntryLeg(request, parentId);
    var limit, legs := SizedAt(candidate, snapshot, cfg), RequestBracket(request, parentId).value;
    CostWithinIff(request.quantity, legs[0].limitPrice.value, limit, MAX_POSITION_PCT * EffectiveCapital(nlv));
  }

  lemma EntryLeg(request: TradeRequest, parentId: int)
    requires RequestBracket(request, parentId).Ok?
    ensures
      var legs := RequestBracket(request, parentId).value;
      && legs != [] && legs[0].limitPrice.Some? && 0.0 < legs[0].limitPrice.value
      && OrderNotional(legs) == request.quantity as real * legs[0].limitPrice.value
  {
    AcceptedIsProtected(request, parentId);
    hide RequestBracket;
  }

  /** Rounding the limit after sizing moves each share's price by at most 0.00505. */
  lemma OrderNotionalBound(candidate: DealCandidate, snapshot: PriceSnapshot, nlv: real, open: int, rampup: int,
                           cfg: TradingConfig, tradeId: string, request: TradeRequest, parentId: int)
    requires EvaluateCandidate(candidate, snapshot, nlv, open, rampup, cfg, tradeId) == Some(request)
    requires RequestBracket(request, parentId).Ok?
    ensures
      var legs := RequestBracket(request, parentId).value;
      && legs != [] && legs[0].limitPrice.Some?
      && OrderNotional(legs) <= MAX_POSITION_PCT * EffectiveCapital(nlv) + request.quantity as real * 0.00505
  {
    hide *;
    QuantityIsShares(candidate, snapshot, nlv, open, rampup, cfg, tradeId, request);
    DecisionLegs(candidate, snapshot, nlv, open, rampup, cfg, tradeId, request, parentId);
    EntryLeg(request, parentId);
    CostOfRounding(request.quantity as real, RequestBracket(request, parentId).value[0].limitPrice.value,
                   SizedAt(candidate, snapshot, cfg), MAX_POSITION_PCT * EffectiveCapital(nlv));
  }

  lemma CostOfRounding(qty: real, sent: real, limit: real, bound: real)
    requires 0.0 <= qty && sent <= limit + 0.00505 && qty * limit <= bound
    ensures qty * sent <= bound + qty * 0.00505
  {
    Scale(sent, limit + 0.00505, qty);
    assert (limit + 0.00505) * qty == qty * limit + qty * 0.00505;
  }

  /** So the 12% cap on a position can be passed by the order itself. */
  lemma OrderCanExceedCap() returns (candidate: DealCandidate, snapshot: PriceSnapshot, request: TradeRequest)
    ensures EvaluateCandidate(candidate, snapshot, 2000000.0, 0, 5, DEFAULT_CONFIG, "t") == Some(request)
    ensures forall parentId ::
              var r := RequestBracket(request, parentId);
              r.Ok? && r.value != [] && r.value[0].limitPrice.Some? && OrderNotional(r.value) > 0.12 * 2000000.0
    ensures !request.requiresApproval && request.symbol == Some("T") && request.exchange == Some("SBF")
  {
    hide *;
    candidate, snapshot, request := DearDecision();
    forall parentId
      ensures
        var r := RequestBracket(request, parentId);
        r.Ok? && r.value != [] && r.value[0].limitPrice.Some? && OrderNotional(r.value) > 0.12 * 2000000.0
    {
      DefaultConfigAccepted(candidate, snapshot, 2000000.0, 0, 5, "t", request, parentId);
      EntryLeg(request, parentId);
      CostsMore(request, parentId);
    }
  }

  /** A decision whose limit of 1.136135 is rounded up to 1.14. */
  lemma DearDecision() returns (candidate: DealCandidate, snapshot: PriceSnapshot, request: TradeRequest)
    ensures EvaluateCandidate(candidate, snapshot, 2000000.0, 0, 5, DEFAULT_CONFIG, "t") == Some(request)
    ensures candidate.juridiction == "FR" && ReferencePrice(snapshot, "FR") == Some(1.135)
    ensures request.limitPrice == Round4(1.136135) && request.quantity >= 211000
    ensures !request.requiresApproval && request.symbol == Some("T") && request.exchange == Some("SBF")
  {
    candidate := DealCandidate(1, "Target", "Bidder", "FR", Some(2.27), 1.0, 5, Some("T"), Some("SBF"), None, "EUR");
    snapshot := PriceSnapshot(None, None, Some(1.135), "yfinance_close");
    EvaluateExactly(candidate, snapshot, 2000000.0, 0, 5, DEFAULT_CONFIG, "t", 2.27, 1.135, 1.0, 1.136135, 0.15, 0.12,
                    2000000.0);
    hide EvaluateCandidate, Round4;
    request := EvaluateCandidate(candidate, snapshot, 2000000.0, 0, 5, DEFAULT_CONFIG, "t").value;
    Enough(request.quantity);
  }

  lemma Enough(q: int)
    requires 240000.0 < q as real * 1.136135 + 1.136135
    ensures q >= 211000
  {
  }

  lemma CostsMore(request: TradeRequest, parentId: int)
    requires request.limitPrice == Round4(1.136135) && request.quantity >= 211000
        && RequestBracket(request, parentId).Ok?
    ensures
      var legs := RequestBracket(request, parentId).value;
      legs != [] && legs[0].limitPrice.Some? && legs[0].qty == request.quantity && OrderNotional(legs) > 240000.0
  {
    RoundHalfEvenUnique(1.136135 * 10000.0, 11361);
    BracketBuilder.OnTheCentGrid(request.limitPrice);
    RoundHalfEvenUnique(request.limitPrice / 0.01, 114);
    Scale(211000.0, request.quantity as real, 1.14);
  }
}
