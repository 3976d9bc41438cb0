/**
 Kelly-fractional position sizing with its guardrails
 (src/trading/position_sizing.py). Euros and percentages are exact reals.
 */
module PositionSizing {
  import opened Products

  const KELLY_FRACTION := 0.15
  const MAX_POSITION_PCT := 0.12
  const MIN_POSITION_EUR := 1000.0
  const MAX_CONCURRENT_POSITIONS := 5
  const AVG_BREAK_LOSS := 0.15
  const CAPITAL_FLOOR := 50000.0
  const CAPITAL_CAP := 2000000.0

  datatype Reason = Fine | NoEdge | BelowMin | PositionCap | BadPrice

  datatype Kelly = Kelly(raw: real, fractional: real, positionPct: real)

  datatype PositionSize = PositionSize(
    sizeEur: real, sizeQty: int, positionPct: real, kellyRaw: real, kellyFractional: real,
    expectedReturn: real, effectiveCapital: real, reason: Reason)
  {
    predicate Tradeable() {
      sizeQty > 0 && reason == Fine
    }
  }

  function Min(a: real, b: real): real {
    if a <= b then a else b
  }

  function Max(a: real, b: real): real {
    if a >= b then a else b
  }

  /** NetLiquidation held inside the band from 50,000 to 2,000,000. */
  predicate IsClamped(netLiquidation: real, cap: real) {
    if netLiquidation < 50000.0 then cap == 50000.0
    else if netLiquidation > 2000000.0 then cap == 2000000.0
    else cap == netLiquidation
  }

  function EffectiveCapital(netLiquidation: real): (cap: real)
    ensures CAPITAL_FLOOR <= cap <= CAPITAL_CAP
    ensures IsClamped(netLiquidation, cap)
  {
    Max(Min(netLiquidation, CAPITAL_CAP), CAPITAL_FLOOR)
  }

  function ComputeKelly(p: real, expectedReturn: real): (k: Kelly)
    ensures 0.0 <= k.positionPct <= MAX_POSITION_PCT
  {
    if expectedReturn <= 0.0 then Kelly(0.0, 0.0, 0.0)
    else
      var raw := (p * expectedReturn - (1.0 - p) * AVG_BREAK_LOSS) / expectedReturn;
      var fractional := raw * KELLY_FRACTION;
      Kelly(raw, fractional, Max(0.0, Min(MAX_POSITION_PCT, fractional)))
  }

  /** What is won on average less what is lost, for each euro: full Kelly times the spread. */
  function Edge(p: real, expectedReturn: real): real {
    p * expectedReturn - (1.0 - p) * 0.15
  }

  /**
   15% of full Kelly, never under nothing and never over 12%: no share without an
   edge, the cap where that much is reached, and in between 0.15 * edge / spread.
   */
  predicate IsKellyShare(p: real, expectedReturn: real, share: real) {
    var edge := Edge(p, expectedReturn);
    if expectedReturn <= 0.0 || edge <= 0.0 then share == 0.0
    else if 0.15 * edge >= 0.12 * expectedReturn then share == 0.12
    else share * expectedReturn == 0.15 * edge
  }

  /** The share is the one described, and each of its ends is reached exactly where it says. */
  lemma KellyShare(p: real, expectedReturn: real)
    ensures
      var share, edge := ComputeKelly(p, expectedReturn).positionPct, Edge(p, expectedReturn);
      && IsKellyShare(p, expectedReturn, share)
      && (share == 0.0 <==> expectedReturn <= 0.0 || edge <= 0.0)
      && (share == 0.12 <==> expectedReturn > 0.0 && 0.15 * edge >= 0.12 * expectedReturn)
  {
    var edge := Edge(p, expectedReturn);
    if expectedReturn > 0.0 {
      var fractional := ComputeKelly(p, expectedReturn).fractional;
      FractionOfEdge(p, expectedReturn);
      TimesIsProduct(fractional, expectedReturn);
      hide Times, Edge;
      TimesOrder(fractional, 0.0, expectedReturn);
      TimesOrder(fractional, 0.12, expectedReturn);
      TimesOne(expectedReturn);
      TimesIsProduct(0.12, expectedReturn);
    }
  }

  lemma FractionOfEdge(p: real, expectedReturn: real)
    requires expectedReturn > 0.0
    ensures ComputeKelly(p, expectedReturn).fractional * expectedReturn == 0.15 * Edge(p, expectedReturn)
  {
    var edge := Edge(p, expectedReturn);
    var raw := ComputeKelly(p, expectedReturn).raw;
    assert raw == edge / expectedReturn;
    assert raw * expectedReturn == edge;
    assert raw * 0.15 * expectedReturn == 0.15 * (raw * expectedReturn);
  }

  /** The description fits one share. */
  lemma KellyShareUnique(p: real, expectedReturn: real, share: real)
    requires IsKellyShare(p, expectedReturn, share)
    ensures share == ComputeKelly(p, expectedReturn).positionPct
  {
    var own := ComputeKelly(p, expectedReturn).positionPct;
    KellyShare(p, expectedReturn);
    hide ComputeKelly, Edge;
    if expectedReturn > 0.0 {
      if share * expectedReturn == own * expectedReturn {
        TimesIsProduct(share, expectedReturn);
        TimesIsProduct(own, expectedReturn);
        Cancel(share, own, expectedReturn);
      }
    }
  }

  /** The euros the Kelly share of the capital allows. */
  function Budget(p: real, expectedReturn: real, netLiquidation: real): real {
    Times(ComputeKelly(p, expectedReturn).positionPct, EffectiveCapital(netLiquidation))
  }

  lemma BudgetWithinCap(p: real, expectedReturn: real, netLiquidation: real)
    ensures 0.0 <= Budget(p, expectedReturn, netLiquidation) <= MAX_POSITION_PCT * EffectiveCapital(netLiquidation)
  {
    hide ComputeKelly, EffectiveCapital, Times;
    var pct, cap := ComputeKelly(p, expectedReturn).positionPct, EffectiveCapital(netLiquidation);
    TimesScale(0.0, pct, cap);
    TimesScale(pct, MAX_POSITION_PCT, cap);
    TimesOne(cap);
    TimesIsProduct(MAX_POSITION_PCT, cap);
  }

  /** The most whole shares the budget buys. */
  function Shares(budget: real, price: real): (q: int)
    requires price > 0.0
    ensures q as real * price <= budget < q as real * price + price  // the most the budget buys
    ensures q >= 1 <==> price <= budget
  {
    WholePart(budget, price);
    (budget / price).Floor
  }

  function Size(p: real, expectedReturn: real, entryPrice: real, netLiquidation: real,
                openPositions: int): PositionSize {
    var cap := EffectiveCapital(netLiquidation);
    var k := ComputeKelly(p, expectedReturn);
    if openPositions >= MAX_CONCURRENT_POSITIONS then
      PositionSize(0.0, 0, 0.0, 0.0, 0.0, expectedReturn, cap, PositionCap)
    else if entryPrice <= 0.0 then
      PositionSize(0.0, 0, 0.0, 0.0, 0.0, expectedReturn, cap, BadPrice)
    else if k.positionPct <= 0.0 then
      PositionSize(0.0, 0, 0.0, k.raw, k.fractional, expectedReturn, cap, NoEdge)
    else
      var budget := Budget(p, expectedReturn, netLiquidation);
      var qty := Shares(budget, entryPrice);
      if budget < MIN_POSITION_EUR || qty < 1 then
        PositionSize(budget, 0, k.positionPct, k.raw, k.fractional, expectedReturn, cap, BelowMin)
      else
        PositionSize(qty as real * entryPrice, qty, k.positionPct, k.raw, k.fractional, expectedReturn, cap, Fine)
  }

  /** Buying at least one whole share uses more than half of the budget. */
  lemma HalfBudget(budget: real, q: int, price: real)
    requires q >= 1 && 0.0 < price && budget < q as real * price + price
    ensures budget / 2.0 < q as real * price
  {
    Scale(1.0, q as real, price);
  }

  /** What a tradeable size promises whoever places the order. */
  ghost predicate WithinGuardrails(r: PositionSize, entryPrice: real, budget: real) {
    && r.sizeEur == r.sizeQty as real * entryPrice
    && r.sizeEur <= budget < r.sizeQty as real * entryPrice + entryPrice
    && MIN_POSITION_EUR / 2.0 < r.sizeEur
  }

  /**
   A size is tradeable exactly when there is a free slot, a price, a budget of
   at least the minimum, and the budget buys one share; it then is the largest
   whole-share position inside the budget, and never less than half the minimum.
   */
  lemma SizeGuardrails(p: real, expectedReturn: real, entryPrice: real, netLiquidation: real, openPositions: int)
    ensures
      var r := Size(p, expectedReturn, entryPrice, netLiquidation, openPositions);
      var budget := Budget(p, expectedReturn, netLiquidation);
      && (r.Tradeable() <==>
          openPositions < MAX_CONCURRENT_POSITIONS && 0.0 < entryPrice <= budget && MIN_POSITION_EUR <= budget)
      && (r.Tradeable() ==> WithinGuardrails(r, entryPrice, budget))
      && (!r.Tradeable() ==> r.sizeQty == 0)
  {
    var r := Size(p, expectedReturn, entryPrice, netLiquidation, openPositions);
    var budget := Budget(p, expectedReturn, netLiquidation);
    if r.Tradeable() {
      HalfBudget(budget, r.sizeQty, entryPrice);
      assert r.sizeEur == r.sizeQty as real * entryPrice;
      assert r.sizeEur > budget / 2.0;
    }
  }

  /**
   A size in plain numbers: why it is refused, and else the most whole shares
   that the Kelly share of the clamped capital buys.
   */
  lemma SizeExactly(p: real, expectedReturn: real, entryPrice: real, netLiquidation: real, openPositions: int,
                    share: real, cap: real)
    requires IsKellyShare(p, expectedReturn, share) && IsClamped(netLiquidation, cap)
    ensures
      var r, budget := Size(p, expectedReturn, entryPrice, netLiquidation, openPositions), share * cap;
      && (r.reason == PositionCap <==> openPositions >= 5)
      && (r.reason == BadPrice <==> openPositions < 5 && entryPrice <= 0.0)
      && (r.reason == NoEdge <==> openPositions < 5 && 0.0 < entryPrice && share == 0.0)
      && (r.reason == BelowMin <==>
          openPositions < 5 && 0.0 < entryPrice && share != 0.0 && (budget < 1000.0 || budget < entryPrice))
      && (r.Tradeable() <==> r.reason == Fine)
      && (r.Tradeable() ==>
          && r.sizeQty >= 1 && r.sizeQty as real * entryPrice <= budget < r.sizeQty as real * entryPrice + entryPrice
          && r.positionPct == share && r.sizeEur == r.sizeQty as real * entryPrice
          && 0.0 < expectedReturn && r.kellyFractional * expectedReturn == 0.15 * Edge(p, expectedReturn))
  {
    if expectedReturn > 0.0 {
      FractionOfEdge(p, expectedReturn);
    }
    KellyShareUnique(p, expectedReturn, share);
    TimesIsProduct(share, cap);
    KellyShare(p, expectedReturn);
    hide ComputeKelly, IsKellyShare, Times, Edge;
    assert Budget(p, expectedReturn, netLiquidation) == share * cap;
    SizeGuardrails(p, expectedReturn, entryPrice, netLiquidation, openPositions);
  }

  /** The Kelly share grows with the probability and with the spread. */
  lemma KellyMonotone(p: real, p': real, er: real, er': real)
    requires 0.0 <= p <= p' <= 1.0 && er <= er'
    ensures ComputeKelly(p, er).positionPct <= ComputeKelly(p', er').positionPct
  {
    if er > 0.0 {
      RawKelly(p, er);
      RawKelly(p', er');
      Quotient(AVG_BREAK_LOSS, AVG_BREAK_LOSS, er, er');
      LossTerm(p, p', AVG_BREAK_LOSS / er, AVG_BREAK_LOSS / er');
    }
  }

  lemma LossTerm(p: real, p': real, a: real, b: real)
    requires 0.0 <= p <= p' <= 1.0 && 0.0 <= b <= a
    ensures p - (1.0 - p) * a <= p' - (1.0 - p') * b
  {
    Scale(0.0, a - b, 1.0 - p);
    Scale(0.0, p' - p, b);
    assert (1.0 - p) * a - (1.0 - p') * b == (a - b) * (1.0 - p) + (p' - p) * b;
  }

  /** Full Kelly, with the division by the spread carried out. */
  lemma RawKelly(p: real, er: real)
    requires er > 0.0
    ensures ComputeKelly(p, er).raw == p - (1.0 - p) * (AVG_BREAK_LOSS / er)
  {
    var loss := AVG_BREAK_LOSS / er;
    assert loss * er == AVG_BREAK_LOSS;
    var raw := p - (1.0 - p) * loss;
    assert raw * er == p * er - (1.0 - p) * (loss * er);
    assert raw == (raw * er) / er;
  }

  lemma SharesMonotone(budget: real, budget': real, price: real, price': real)
    requires 0.0 <= budget <= budget' && 0.0 < price' <= price
    ensures Shares(budget, price) <= Shares(budget', price')
  {
    Quotient(budget, budget', price', price);
  }

  lemma BudgetMonotone(p: real, p': real, er: real, er': real, nlv: real)
    requires 0.0 <= p <= p' <= 1.0 && er <= er'
    ensures Budget(p, er, nlv) <= Budget(p', er', nlv)
  {
    hide ComputeKelly, EffectiveCapital, Times;
    KellyMonotone(p, p', er, er');
    TimesScale(ComputeKelly(p, er).positionPct, ComputeKelly(p', er').positionPct, EffectiveCapital(nlv));
  }

  /** More edge or more probability at a lower price never buys fewer shares. */
  lemma SizeMonotone(p: real, p': real, er: real, er': real, price: real, price': real, nlv: real, open: int)
    requires 0.0 <= p <= p' <= 1.0 && er <= er' && 0.0 < price' <= price
    ensures Size(p, er, price, nlv, open).sizeQty <= Size(p', er', price', nlv, open).sizeQty
    ensures Size(p, er, price, nlv, open).Tradeable() ==> Size(p', er', price', nlv, open).Tradeable()
  {
    hide Budget;
    BudgetWithinCap(p, er, nlv);
    BudgetMonotone(p, p', er, er', nlv);
    SharesMonotone(Budget(p, er, nlv), Budget(p', er', nlv), price, price');
    SizeGuardrails(p', er', price', nlv, open);
    SizeGuardrails(p, er, price, nlv, open);
  }
}
