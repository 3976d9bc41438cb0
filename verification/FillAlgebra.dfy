/**
 Sums over share lots, and the two inequalities the position book rests on:
 a euro-weighted mean price lies among the prices, and (Cauchy-Schwarz)
 sum(p*q)^2 <= sum(p^2*q) * sum(q).
 */
module FillAlgebra {
  import opened Products

  datatype Lot = Lot(price: real, qty: int)

  function Shares(l: Lot): real {
    l.qty as real
  }

  function Euros(l: Lot): real {
    l.price * l.qty as real
  }

  function WeightedEuros(l: Lot): real {
    l.price * Euros(l)
  }

  predicate Positive(lots: seq<Lot>) {
    forall i :: 0 <= i < |lots| ==> lots[i].price > 0.0 && lots[i].qty > 0
  }

  /** Shares bought. */
  function SumQ(lots: seq<Lot>): real {
    if lots == [] then 0.0 else SumQ(lots[..|lots| - 1]) + Shares(lots[|lots| - 1])
  }

  /** Euros paid. */
  function SumPQ(lots: seq<Lot>): real {
    if lots == [] then 0.0 else SumPQ(lots[..|lots| - 1]) + Euros(lots[|lots| - 1])
  }

  /** Euros paid, each weighted by its price. */
  function SumPPQ(lots: seq<Lot>): real {
    if lots == [] then 0.0 else SumPPQ(lots[..|lots| - 1]) + WeightedEuros(lots[|lots| - 1])
  }

  lemma PositiveProduct(a: real, b: real)
    requires 0.0 < a && 0.0 < b
    ensures 0.0 < a * b
  {
  }

  lemma LotPositive(l: Lot)
    requires l.price > 0.0 && l.qty > 0
    ensures 0.0 < Shares(l) && 0.0 < Euros(l) && 0.0 < WeightedEuros(l)
  {
    PositiveProduct(l.price, l.qty as real);
    PositiveProduct(l.price, Euros(l));
  }

  lemma {:induction false} SumsPositive(lots: seq<Lot>)
    requires Positive(lots)
    ensures 0.0 <= SumQ(lots) && 0.0 <= SumPQ(lots) && 0.0 <= SumPPQ(lots)
    ensures lots != [] ==> 0.0 < SumQ(lots) && 0.0 < SumPQ(lots) && 0.0 < SumPPQ(lots)
  {
    hide Euros, WeightedEuros;
    if lots != [] {
      SumsPositive(lots[..|lots| - 1]);
      LotPositive(lots[|lots| - 1]);
    }
  }

  /** Bounds on every price bound the euro-weighted mean. */
  lemma {:induction false} WeightedBounds(lots: seq<Lot>, low: real, high: real)
    requires Positive(lots)
    requires forall i :: 0 <= i < |lots| ==> low <= lots[i].price <= high
    ensures Times(low, SumPQ(lots)) <= SumPPQ(lots) <= Times(high, SumPQ(lots))
  {
    hide Euros, WeightedEuros, Times;
    if lots == [] {
      Commute(low, 0.0);
      Commute(high, 0.0);
      TimesOne(low);
      TimesOne(high);
    } else {
      var front, l := lots[..|lots| - 1], lots[|lots| - 1];
      WeightedBounds(front, low, high);
      LotPositive(l);
      BoundStep(low, l, SumPQ(front));
      BoundStep(high, l, SumPQ(front));
    }
  }

  lemma BoundStep(a: real, l: Lot, s: real)
    requires 0.0 < Euros(l)
    ensures Times(a, s + Euros(l)) == Times(a, s) + Times(a, Euros(l))
    ensures a <= l.price ==> Times(a, Euros(l)) <= WeightedEuros(l)
    ensures l.price <= a ==> WeightedEuros(l) <= Times(a, Euros(l))
  {
    if a <= l.price {
      Scale(a, l.price, Euros(l));
    }
    if l.price <= a {
      Scale(l.price, a, Euros(l));
    }
  }

  /** How far one lot's price is from `p`, weighted by its shares. */
  function Deviation(l: Lot, p: real): real {
    Times(Shares(l), Times(l.price - p, l.price - p))
  }

  /** The spread of the prices around one price. */
  function Dispersion(lots: seq<Lot>, p: real): real {
    if lots == [] then 0.0 else Dispersion(lots[..|lots| - 1], p) + Deviation(lots[|lots| - 1], p)
  }

  /** The same, multiplied out: b - 2ps + p^2 n. */
  function Expanded(b: real, s: real, n: real, p: real): real {
    b - 2.0 * p * s + p * p * n
  }

  lemma {:induction false} DispersionExpanded(lots: seq<Lot>, p: real)
    ensures Dispersion(lots, p) == Expanded(SumPPQ(lots), SumPQ(lots), SumQ(lots), p)
  {
    if lots == [] {
      assert Expanded(0.0, 0.0, 0.0, p) == 0.0;
    } else {
      hide Euros, WeightedEuros, Deviation, Expanded, Shares;
      var front, l := lots[..|lots| - 1], lots[|lots| - 1];
      DispersionExpanded(front, p);
      ExpandedStep(SumPPQ(front), SumPQ(front), SumQ(front), l, p);
    }
  }

  lemma ExpandedStep(b: real, s: real, n: real, l: Lot, p: real)
    ensures Expanded(b, s, n, p) + Deviation(l, p) == Expanded(b + WeightedEuros(l), s + Euros(l), n + Shares(l), p)
  {
    var x, q := l.price, Shares(l);
    assert q * ((x - p) * (x - p)) == x * (x * q) - 2.0 * p * (x * q) + p * p * q;
  }

  /** Nonnegative, and zero only when every lot was bought at that very price. */
  lemma {:induction false} DispersionZeroIff(lots: seq<Lot>, p: real)
    requires Positive(lots)
    ensures 0.0 <= Dispersion(lots, p)
    ensures Dispersion(lots, p) == 0.0 <==> forall i :: 0 <= i < |lots| ==> lots[i].price == p
  {
    hide Deviation;
    if lots != [] {
      var front, l := lots[..|lots| - 1], lots[|lots| - 1];
      DispersionZeroIff(front, p);
      DeviationZeroIff(l, p);
      assert forall i :: 0 <= i < |front| ==> front[i] == lots[i];
    }
  }

  lemma DeviationZeroIff(l: Lot, p: real)
    requires l.qty > 0
    ensures 0.0 <= Deviation(l, p) && (Deviation(l, p) == 0.0 <==> l.price == p)
  {
    hide Times;
    SignOfSquare(l.price - p);
    SignOfProduct(Shares(l), Times(l.price - p, l.price - p));
  }

  /** sum(p^2*q) * sum(q) - sum(p*q)^2. */
  function Slack(b: real, s: real, n: real): real {
    b * n - s * s
  }

  function Gap(lots: seq<Lot>): real {
    Slack(SumPPQ(lots), SumPQ(lots), SumQ(lots))
  }

  lemma GapStep(lots: seq<Lot>)
    requires lots != []
    ensures
      var front, l := lots[..|lots| - 1], lots[|lots| - 1];
      Gap(lots) == Gap(front) + Times(Shares(l), Dispersion(front, l.price))
  {
    hide Euros, WeightedEuros, Expanded, Slack, Times, Shares;
    var front, l := lots[..|lots| - 1], lots[|lots| - 1];
    DispersionExpanded(front, l.price);
    SlackStep(SumPPQ(front), SumPQ(front), SumQ(front), l);
  }

  lemma SlackStep(b: real, s: real, n: real, l: Lot)
    ensures Slack(b + WeightedEuros(l), s + Euros(l), n + Shares(l)) ==
            Slack(b, s, n) + Times(Shares(l), Expanded(b, s, n, l.price))
  {
    SlackPolynomial(b, s, n, l.price, Shares(l));
  }

  lemma SlackPolynomial(b: real, s: real, n: real, x: real, q: real)
    ensures (b + x * (x * q)) * (n + q) - (s + x * q) * (s + x * q) ==
            b * n - s * s + q * (b - 2.0 * x * s + x * x * n)
  {
    assert (b + x * (x * q)) * (n + q) == b * n + b * q + x * (x * q) * n + x * (x * q) * q;
    assert (s + x * q) * (s + x * q) == s * s + 2.0 * (x * s) * q + (x * q) * (x * q);
    assert q * (b - 2.0 * x * s + x * x * n) == b * q - 2.0 * (x * s) * q + x * (x * q) * n;
  }

  ghost predicate SamePrice(lots: seq<Lot>) {
    forall i, j :: 0 <= i < j < |lots| ==> lots[i].price == lots[j].price
  }

  /** Cauchy-Schwarz on the lots, with the case of equality. */
  lemma {:induction false} CauchySchwarz(lots: seq<Lot>)
    requires Positive(lots)
    ensures 0.0 <= Gap(lots)
    ensures Gap(lots) == 0.0 <==> SamePrice(lots)
  {
    if lots == [] {
    } else {
      hide Gap, Dispersion, Times;
      var front, l := lots[..|lots| - 1], lots[|lots| - 1];
      CauchySchwarz(front);
      GapStep(lots);
      DispersionZeroIff(front, l.price);
      SignOfProduct(Shares(l), Dispersion(front, l.price));
      assert forall i :: 0 <= i < |front| ==> front[i] == lots[i];
    }
  }
}
