/**
 The book of paper positions and what a fill does to it
 (src/trading/executor.py, `_apply_fill_to_position`). Amounts are exact.
 */
module PositionBook {
  import opened Common
  import opened Products
  import opened BracketBuilder
  import opened FillAlgebra

  datatype PositionStatus = Open | Closed

  datatype Position = Position(
    dealId: int, entryPrice: real, sizeEur: real, status: PositionStatus, exitPrice: Option<real>, pnlEur: Option<real>)

  datatype Fill = Fill(dealId: int, side: Action, price: real, qty: int)

  /** The table refuses a position whose size is not positive. */
  datatype FillError = SizeNotPositive

  datatype Booked = Booked(positions: seq<Position>, pnl: Option<real>)

  predicate IsOpenFor(p: Position, deal: int) {
    p.dealId == deal && p.status == Open
  }

  /** The open position of a deal: the first row the query finds. */
  function OpenOf(positions: seq<Position>, deal: int): Option<Position> {
    if positions == [] then None
    else if IsOpenFor(positions[0], deal) then Some(positions[0])
    else OpenOf(positions[1..], deal)
  }

  /** The book with that row rewritten. */
  function Rewrite(positions: seq<Position>, deal: int, p: Position): seq<Position> {
    if positions == [] then []
    else if IsOpenFor(positions[0], deal) then [p] + positions[1..]
    else [positions[0]] + Rewrite(positions[1..], deal, p)
  }

  function OpenCount(positions: seq<Position>): nat {
    if positions == [] then 0 else (if positions[0].status == Open then 1 else 0) + OpenCount(positions[1..])
  }

  function DealOpenCount(positions: seq<Position>, deal: int): nat {
    if positions == [] then 0
    else (if IsOpenFor(positions[0], deal) then 1 else 0) + DealOpenCount(positions[1..], deal)
  }

  /** The P&L recorded when a position closes; nothing is recorded without an entry price. */
  function RealisedPnl(p: Position, exit: real): Option<real> {
    if p.entryPrice > 0.0 then Some(Times(exit / p.entryPrice - 1.0, p.sizeEur)) else None
  }

  function FillEur(fill: Fill): real {
    fill.price * fill.qty as real
  }

  function NewRow(fill: Fill): Position {
    Position(fill.dealId, fill.price, FillEur(fill), Open, None, None)
  }

  /** An entry averaged by euro size, since the book keeps no share count. */
  function Averaged(pos: Position, fill: Fill): Position
    requires pos.sizeEur + FillEur(fill) != 0.0
  {
    var total := pos.sizeEur + FillEur(fill);
    pos.(entryPrice := (pos.entryPrice * pos.sizeEur + fill.price * FillEur(fill)) / total, sizeEur := total)
  }

  function ClosedBy(pos: Position, fill: Fill): Position {
    var pnl := RealisedPnl(pos, fill.price);
    pos.(exitPrice := Some(fill.price), status := Closed, pnlEur := if pnl.Some? then pnl else pos.pnlEur)
  }

  function ApplyFill(positions: seq<Position>, fill: Fill): Result<Booked, FillError> {
    var found := OpenOf(positions, fill.dealId);
    if fill.side == Buy then
      if found.None? then
        if FillEur(fill) <= 0.0 then Err(SizeNotPositive)
        else Ok(Booked(positions + [NewRow(fill)], None))
      else if found.value.sizeEur + FillEur(fill) <= 0.0 then Err(SizeNotPositive)
      else Ok(Booked(Rewrite(positions, fill.dealId, Averaged(found.value, fill)), None))
    else if found.None? then Ok(Booked(positions, None))
    else Ok(Booked(Rewrite(positions, fill.dealId, ClosedBy(found.value, fill)), RealisedPnl(found.value, fill.price)))
  }

  /** A refused fill is rolled back. */
  function After(positions: seq<Position>, fill: Fill): seq<Position> {
    match ApplyFill(positions, fill)
    case Ok(booked) => booked.positions
    case Err(_) => positions
  }

  function AfterAll(positions: seq<Position>, fills: seq<Fill>): seq<Position> {
    if fills == [] then positions
    else After(AfterAll(positions, fills[..|fills| - 1]), fills[|fills| - 1])
  }

  // ----- the shape of the book

  lemma RewriteFacts(positions: seq<Position>, deal: int, p: Position, other: int)
    requires p.dealId == deal && OpenOf(positions, deal).Some?
    ensures |Rewrite(positions, deal, p)| == |positions|
    ensures p.status == Open ==> OpenOf(Rewrite(positions, deal, p), deal) == Some(p)
    ensures other != deal ==> OpenOf(Rewrite(positions, deal, p), other) == OpenOf(positions, other)
    ensures DealOpenCount(Rewrite(positions, deal, p), other) ==
            DealOpenCount(positions, other) - if other == deal && p.status == Closed then 1 else 0
    ensures p in Rewrite(positions, deal, p)
  {
    if !IsOpenFor(positions[0], deal) {
      RewriteFacts(positions[1..], deal, p, other);
    }
  }

  lemma AppendFacts(positions: seq<Position>, p: Position, deal: int)
    ensures DealOpenCount(positions + [p], deal) == DealOpenCount(positions, deal) + if IsOpenFor(p, deal) then 1 else 0
    ensures OpenOf(positions + [p], deal) ==
            if OpenOf(positions, deal).Some? then OpenOf(positions, deal)
            else if IsOpenFor(p, deal) then Some(p) else None
  {
    if positions != [] {
      assert (positions + [p])[1..] == positions[1..] + [p];
      AppendFacts(positions[1..], p, deal);
    }
  }

  lemma {:induction false} OpenOfIffCounted(positions: seq<Position>, deal: int)
    ensures OpenOf(positions, deal).Some? <==> DealOpenCount(positions, deal) >= 1
    ensures OpenOf(positions, deal).Some? ==> IsOpenFor(OpenOf(positions, deal).value, deal)
  {
    if positions != [] {
      OpenOfIffCounted(positions[1..], deal);
    }
  }

  ghost predicate OneOpenPerDeal(positions: seq<Position>) {
    forall deal :: DealOpenCount(positions, deal) <= 1
  }

  /** No fill of any kind ever gives a deal a second open position. */
  lemma FillKeepsOneOpenPerDeal(positions: seq<Position>, fill: Fill)
    requires OneOpenPerDeal(positions)
    ensures OneOpenPerDeal(After(positions, fill))
  {
    OpenOfIffCounted(positions, fill.dealId);
    forall deal ensures DealOpenCount(After(positions, fill), deal) <= 1 {
      FillFacts(positions, fill, deal);
    }
  }

  /** One fill, seen from one deal. */
  lemma FillFacts(positions: seq<Position>, fill: Fill, deal: int)
    ensures DealOpenCount(After(positions, fill), deal) <=
            DealOpenCount(positions, deal) + if fill.dealId == deal && OpenOf(positions, deal).None? then 1 else 0
    ensures fill.dealId != deal ==> OpenOf(After(positions, fill), deal) == OpenOf(positions, deal)
    ensures fill.dealId == deal && fill.side == Buy && ApplyFill(positions, fill).Ok? ==>
              OpenOf(After(positions, fill), deal) ==
              Some(if OpenOf(positions, deal).None? then NewRow(fill)
                   else Averaged(OpenOf(positions, deal).value, fill))
  {
    hide Averaged, FillEur;
    var found := OpenOf(positions, fill.dealId);
    OpenOfIffCounted(positions, fill.dealId);
    if ApplyFill(positions, fill).Ok? {
      if found.Some? {
        var row := if fill.side == Buy then Averaged(found.value, fill) else ClosedBy(found.value, fill);
        SameRow(found.value, fill);
        RewriteFacts(positions, fill.dealId, row, deal);
      } else {
        AppendFacts(positions, NewRow(fill), deal);
      }
    }
  }

  lemma SameRow(pos: Position, fill: Fill)
    ensures ClosedBy(pos, fill).dealId == pos.dealId
    ensures pos.sizeEur + FillEur(fill) != 0.0 ==>
              Averaged(pos, fill).dealId == pos.dealId && Averaged(pos, fill).status == pos.status
  {
  }

  // ----- how many positions are open

  lemma RewriteOpenCount(positions: seq<Position>, deal: int, p: Position)
    requires OpenOf(positions, deal).Some?
    ensures OpenCount(Rewrite(positions, deal, p)) == OpenCount(positions) - if p.status == Closed then 1 else 0
  {
    if !IsOpenFor(positions[0], deal) {
      RewriteOpenCount(positions[1..], deal, p);
    }
  }

  lemma AppendOpenCount(positions: seq<Position>, p: Position)
    ensures OpenCount(positions + [p]) == OpenCount(positions) + if p.status == Open then 1 else 0
  {
    if positions != [] {
      assert (positions + [p])[1..] == positions[1..] + [p];
      AppendOpenCount(positions[1..], p);
    }
  }

  /** A purchase that opens a position: its deal has none, and it costs something. */
  predicate Opens(positions: seq<Position>, fill: Fill) {
    fill.side == Buy && OpenOf(positions, fill.dealId).None? && FillEur(fill) > 0.0
  }

  predicate Closes(positions: seq<Position>, fill: Fill) {
    fill.side == Sell && OpenOf(positions, fill.dealId).Some?
  }

  /** Whatever the count is, a purchase for a deal without a position adds one, and nothing else does. */
  lemma FillOpenCount(positions: seq<Position>, fill: Fill)
    ensures OpenCount(After(positions, fill)) ==
            OpenCount(positions) + if Opens(positions, fill) then 1 else if Closes(positions, fill) then -1 else 0
  {
    hide Averaged, FillEur;
    var found := OpenOf(positions, fill.dealId);
    OpenOfIffCounted(positions, fill.dealId);
    if ApplyFill(positions, fill).Ok? {
      if found.Some? {
        var row := if fill.side == Buy then Averaged(found.value, fill) else ClosedBy(found.value, fill);
        SameRow(found.value, fill);
        RewriteOpenCount(positions, fill.dealId, row);
      } else {
        AppendOpenCount(positions, NewRow(fill));
      }
    }
  }

  function OpenDeals(positions: seq<Position>): set<int> {
    if positions == [] then {}
    else (if positions[0].status == Open then {positions[0].dealId} else {}) + OpenDeals(positions[1..])
  }

  lemma {:induction false} OpenDealsAre(positions: seq<Position>, deal: int)
    ensures deal in OpenDeals(positions) <==> OpenOf(positions, deal).Some?
  {
    if positions != [] {
      OpenDealsAre(positions[1..], deal);
    }
  }

  /** With one open position per deal, positions and deals are counted alike. */
  lemma {:induction false} OpenCountIsDeals(positions: seq<Position>)
    requires OneOpenPerDeal(positions)
    ensures OpenCount(positions) == |OpenDeals(positions)|
  {
    if positions != [] {
      forall deal ensures DealOpenCount(positions[1..], deal) <= 1 {
        assert DealOpenCount(positions, deal) <= 1;
      }
      OpenCountIsDeals(positions[1..]);
      var deal := positions[0].dealId;
      OpenDealsAre(positions[1..], deal);
      OpenOfIffCounted(positions[1..], deal);
      assert DealOpenCount(positions, deal) <= 1;
    }
  }

  // ----- what a sequence of fills leaves on the book

  /** The lots bought for one deal, in order. */
  function Bought(fills: seq<Fill>, deal: int): seq<Lot> {
    if fills == [] then []
    else
      var front, f := Bought(fills[..|fills| - 1], deal), fills[|fills| - 1];
      if f.dealId == deal && f.side == Buy then front + [Lot(f.price, f.qty)] else front
  }

  /** Fills of one deal are purchases, at real prices and of real quantities; the others are arbitrary. */
  ghost predicate BuysOnly(fills: seq<Fill>, deal: int) {
    forall i :: 0 <= i < |fills| && fills[i].dealId == deal ==>
      fills[i].side == Buy && fills[i].price > 0.0 && fills[i].qty > 0
  }

  /** The open position that the lots add up to: their cost, at their euro-weighted mean price. */
  ghost predicate Holds(position: Option<Position>, lots: seq<Lot>, deal: int) {
    if lots == [] then position.None?
    else
      && position.Some?
      && IsOpenFor(position.value, deal)
      && position.value.sizeEur == SumPQ(lots)
      && Times(position.value.entryPrice, SumPQ(lots)) == SumPPQ(lots)
  }

  /**
   However the fills of other deals are interleaved, the purchases of a deal
   leave one open position: its size is the euros paid, its entry price the
   mean of the fill prices weighted by euros.
   */
  lemma {:induction false} BoughtPosition(positions: seq<Position>, fills: seq<Fill>, deal: int)
    requires OpenOf(positions, deal).None? && BuysOnly(fills, deal)
    ensures Positive(Bought(fills, deal))
    ensures Holds(OpenOf(AfterAll(positions, fills), deal), Bought(fills, deal), deal)
  {
    hide Times, Averaged, FillEur, NewRow, ApplyFill, SumPQ, SumPPQ;
    if fills != [] {
      var front, f := fills[..|fills| - 1], fills[|fills| - 1];
      assert forall i :: 0 <= i < |front| ==> front[i] == fills[i];
      BoughtPosition(positions, front, deal);
      FillFacts(AfterAll(positions, front), f, deal);
      if f.dealId == deal {
        BuyStep(AfterAll(positions, front), f, Bought(front, deal));
      }
    }
  }

  lemma BuyStep(positions: seq<Position>, f: Fill, lots: seq<Lot>)
    requires f.side == Buy && f.price > 0.0 && f.qty > 0 && Positive(lots)
    requires Holds(OpenOf(positions, f.dealId), lots, f.dealId)
    ensures Holds(OpenOf(After(positions, f), f.dealId), lots + [Lot(f.price, f.qty)], f.dealId)
  {
    hide Euros, WeightedEuros, FillEur, Averaged, Times;
    var l := Lot(f.price, f.qty);
    var more := lots + [l];
    assert more[..|more| - 1] == lots;
    LotPositive(l);
    FillEurIs(f);
    SumsPositive(lots);
    FillFacts(positions, f, f.dealId);
    if lots == [] {
      TimesIsProduct(f.price, Euros(l));
      WeightedIs(l);
    } else {
      AveragedEntry(OpenOf(positions, f.dealId).value, f, SumPQ(lots), SumPPQ(lots));
    }
  }

  lemma FillEurIs(f: Fill)
    ensures FillEur(f) == Euros(Lot(f.price, f.qty))
  {
  }

  lemma WeightedIs(l: Lot)
    ensures WeightedEuros(l) == l.price * Euros(l)
  {
  }

  lemma AveragedEntry(pos: Position, f: Fill, s: real, b: real)
    requires pos.sizeEur == s && Times(pos.entryPrice, s) == b && 0.0 <= s && 0.0 < FillEur(f)
    ensures
      var l := Lot(f.price, f.qty);
      && Averaged(pos, f).sizeEur == s + Euros(l)
      && Times(Averaged(pos, f).entryPrice, s + Euros(l)) == b + WeightedEuros(l)
      && Averaged(pos, f).dealId == pos.dealId && Averaged(pos, f).status == pos.status
  {
    TimesQuotient(b + f.price * FillEur(f), s + FillEur(f));
  }

  /** The entry price lies between the least and the greatest fill price. */
  lemma EntryWithinPrices(positions: seq<Position>, fills: seq<Fill>, deal: int, low: real, high: real)
    requires OpenOf(positions, deal).None? && BuysOnly(fills, deal) && Bought(fills, deal) != []
    requires forall i :: 0 <= i < |Bought(fills, deal)| ==> low <= Bought(fills, deal)[i].price <= high
    ensures
      var position := OpenOf(AfterAll(positions, fills), deal);
      position.Some? && low <= position.value.entryPrice <= high
  {
    BoughtPosition(positions, fills, deal);
    hide *;
    var lots := Bought(fills, deal);
    SumsPositive(lots);
    WeightedBounds(lots, low, high);
    HoldsUnfolded(OpenOf(AfterAll(positions, fills), deal), lots, deal);
    var entry := OpenOf(AfterAll(positions, fills), deal).value.entryPrice;
    if entry < low {
      TimesBelow(entry, low, SumPQ(lots));
    }
    if high < entry {
      TimesBelow(high, entry, SumPQ(lots));
    }
  }

  lemma HoldsUnfolded(position: Option<Position>, lots: seq<Lot>, deal: int)
    requires Holds(position, lots, deal) && lots != []
    ensures position.Some? && position.value.sizeEur == SumPQ(lots) && position.value.status == Open
        && position.value.dealId == deal
    ensures Times(position.value.entryPrice, SumPQ(lots)) == SumPPQ(lots)
  {
  }

  /** What the shares really gained: sold at `exit` less what they cost. */
  function SharePnl(lots: seq<Lot>, exit: real): real {
    Times(exit, SumQ(lots)) - SumPQ(lots)
  }

  /**
   The SELL that closes the position records a P&L computed from euros alone.
   It never exceeds the gain on the shares, and equals it exactly when every
   lot was bought at the same price.
   */
  lemma RecordedPnlUnderstates(positions: seq<Position>, fills: seq<Fill>, deal: int, exit: real, qty: int)
    requires OpenOf(positions, deal).None? && BuysOnly(fills, deal) && Bought(fills, deal) != [] && 0.0 < exit
    ensures
      var lots := Bought(fills, deal);
      var sold := ApplyFill(AfterAll(positions, fills), Fill(deal, Sell, exit, qty));
      && sold.Ok? && sold.value.pnl.Some?
      && sold.value.pnl.value <= SharePnl(lots, exit)
      && (sold.value.pnl.value == SharePnl(lots, exit) <==> SamePrice(lots))
      && (exists p :: p in sold.value.positions && p.dealId == deal && p.status == Closed
                      && p.exitPrice == Some(exit) && p.pnlEur == sold.value.pnl)
  {
    hide Times, SharePnl, RealisedPnl, SumQ, SumPQ, SumPPQ, Gap, SamePrice;
    var lots := Bought(fills, deal);
    var book := AfterAll(positions, fills);
    BoughtPosition(positions, fills, deal);
    var pos := OpenOf(book, deal).value;
    SumsPositive(lots);
    EntryPositive(pos.entryPrice, SumPQ(lots), SumPPQ(lots));
    CauchySchwarz(lots);
    PnlAgainstShares(pos, lots, exit);
    RewriteFacts(book, deal, ClosedBy(pos, Fill(deal, Sell, exit, qty)), deal);
    assert ClosedBy(pos, Fill(deal, Sell, exit, qty)) in ApplyFill(book, Fill(deal, Sell, exit, qty)).value.positions;
  }

  lemma EntryPositive(entry: real, s: real, b: real)
    requires 0.0 < s && 0.0 < b && Times(entry, s) == b
    ensures 0.0 < entry
  {
    TimesOne(s);
    if entry <= 0.0 {
      TimesScale(entry, 0.0, s);
    }
  }

  lemma PnlAgainstShares(pos: Position, lots: seq<Lot>, exit: real)
    requires 0.0 < exit && 0.0 < SumPQ(lots) && 0.0 < SumQ(lots) && 0.0 < pos.entryPrice
    requires pos.sizeEur == SumPQ(lots) && Times(pos.entryPrice, SumPQ(lots)) == SumPPQ(lots)
    requires 0.0 <= Gap(lots)
    ensures RealisedPnl(pos, exit).Some?
    ensures RealisedPnl(pos, exit).value <= SharePnl(lots, exit)
    ensures RealisedPnl(pos, exit).value == SharePnl(lots, exit) <==> Gap(lots) == 0.0
  {
    hide SumPQ, SumQ, SumPPQ, Times;
    var e, s, n := pos.entryPrice, SumPQ(lots), SumQ(lots);
    var ratio := exit / e;
    assert RealisedPnl(pos, exit).value == Times(ratio, s) - s by { PnlIs(pos, exit); }
    // both differences are the same number scaled by positive factors
    SlackFactors(e, s, n, ratio, SumPPQ(lots));
    TimesQuotient(exit, e);
    RatioPositive(exit, e);
    var excess := Times(e, n) - s;
    SignOfProduct(s, excess);
    SignOfProduct(ratio, excess);
  }

  lemma PnlIs(pos: Position, exit: real)
    requires 0.0 < pos.entryPrice
    ensures RealisedPnl(pos, exit) == Some(Times(exit / pos.entryPrice, pos.sizeEur) - pos.sizeEur)
  {
    hide Times;
    Predecessor(exit / pos.entryPrice, pos.sizeEur);
  }

  lemma SlackFactors(e: real, s: real, n: real, ratio: real, b: real)
    requires Times(e, s) == b
    ensures Slack(b, s, n) == Times(s, Times(e, n) - s)
    ensures Times(Times(ratio, e), n) - Times(ratio, s) == Times(ratio, Times(e, n) - s)
  {
    assert (e * s) * n == s * (e * n);
    assert (ratio * e) * n == ratio * (e * n);
  }

  lemma RatioPositive(a: real, b: real)
    requires 0.0 < a && 0.0 < b
    ensures 0.0 < a / b
  {
  }
}
