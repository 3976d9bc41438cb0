/**
 The cap of five positions over whole runs. A cycle counts the positions that
 fills have opened (src/trading/scheduler.py:159) and the orders it sends
 itself, not the orders of earlier cycles that are still to be filled.
 */
module PositionCap {
  import opened Common
  import opened BracketBuilder
  import opened PositionSizing
  import opened DecisionEngine
  import opened PositionBook
  import opened TradeLedger
  import opened Safeguards
  import opened TradingCycle
  import opened TradingRuns

  // ----- when the cap is passed

  /** The report of a purchase for a deal that has no open position. */
  predicate OpensPosition(l: Ledger, a: Act) {
    a.ReportFill? && a.tradeId in l.trades && Opens(l.positions, FillOf(l.trades[a.tradeId], a.price, a.qty))
  }

  lemma {:induction false} LoopKeepsPositions(ctx: Context, slots: seq<Slot>, p: Progress)
    ensures HandleAll(ctx, slots, p).ledger.positions == p.ledger.positions
  {
    hide Decision, SubmitStep, CooldownActive;
    if slots != [] && !p.raised {
      var d := Decision(ctx, slots[0], p.openPositions);
      if d.Some? {
        SubmitKeepsPositions(p.ledger, d.value, false, slots[0].broker);
      }
      LoopKeepsPositions(ctx, slots[1..], HandleSlot(ctx, slots[0], p));
    }
  }

  lemma ActOpenCount(settings: Settings, w: World, a: Act)
    ensures
      var before, after := OpenCount(w.ledger.positions), OpenCount(Apply(settings, w, a).ledger.positions);
      if OpensPosition(w.ledger, a) then after == before + 1 else after <= before
  {
    hide HandleAll, LossHalts, SubmitStep, ApplyFill, Opens, OpenCount;
    match a
    case Cycle(c) => LoopKeepsPositions(ContextOf(settings, w, c), c.slots, Start(w));
    case Approve(request, broker) => SubmitKeepsPositions(w.ledger, request, true, broker);
    case ReportFill(id, price, qty) =>
      if id in w.ledger.trades {
        FillOpenCount(w.ledger.positions, FillOf(w.ledger.trades[id], price, qty));
      }
    case _ =>
  }

  /** The act that takes the book past the cap is a purchase for a sixth deal, and every such purchase does. */
  lemma CapPassedIff(settings: Settings, w: World, a: Act)
    requires OpenCount(w.ledger.positions) <= MAX_CONCURRENT_POSITIONS
    ensures
      OpenCount(Apply(settings, w, a).ledger.positions) > MAX_CONCURRENT_POSITIONS <==>
      OpenCount(w.ledger.positions) == MAX_CONCURRENT_POSITIONS && OpensPosition(w.ledger, a)
  {
    hide Apply, OpenCount, OpensPosition;
    ActOpenCount(settings, w, a);
  }

  // ----- a discipline that keeps it

  /** The deals of submitted trades, whose fills may still come. */
  function AwaitedDeals(trades: map<string, Trade>): set<int> {
    set id | id in trades && trades[id].status == Submitted :: trades[id].dealId
  }

  /** The deals that have a position or may still get one. */
  function Exposed(l: Ledger): set<int> {
    OpenDeals(l.positions) + AwaitedDeals(l.trades)
  }

  /** The deals one call can add to them. */
  function Adds(l: Ledger, e: Event): set<int> {
    match e
    case Submit(request, approved, broker) =>
      if !Places(l, request, approved, broker) then {}
      else if request.tradeId in l.trades then {l.trades[request.tradeId].dealId}
      else {request.dealId}
    case Fill(id, _, _) => if id in l.trades then {l.trades[id].dealId} else {}
    case Reject(_, _) => {}
  }

  lemma PutAwaited(trades: map<string, Trade>, id: string, row: Trade)
    ensures AwaitedDeals(trades[id := row]) <=
            AwaitedDeals(trades) + if row.status == Submitted then {row.dealId} else {}
  {
  }

  lemma SubmitExposed(l: Ledger, request: TradeRequest, approved: bool, broker: BrokerReply)
    ensures
      AwaitedDeals(SubmitStep(l, request, approved, broker).0.trades) <=
      AwaitedDeals(l.trades) + Adds(l, Submit(request, approved, broker))
  {
    hide RequestBracket, Label, HasOpenTrade, EffectivelyApproved, Qualifies, AwaitedDeals;
    var l' := SubmitStep(l, request, approved, broker).0;
    if l'.trades != l.trades {
      PutAwaited(l.trades, request.tradeId, l'.trades[request.tradeId]);
    }
  }

  lemma FillExposed(positions: seq<Position>, fill: PositionBook.Fill)
    ensures OpenDeals(After(positions, fill)) <= OpenDeals(positions) + {fill.dealId}
  {
    hide ApplyFill, After, OpenDeals;
    forall deal | deal in OpenDeals(After(positions, fill)) ensures deal in OpenDeals(positions) + {fill.dealId} {
      OpenDealsAre(positions, deal);
      OpenDealsAre(After(positions, fill), deal);
      FillFacts(positions, fill, deal);
    }
  }

  lemma StepExposed(l: Ledger, e: Event)
    ensures Exposed(Step(l, e)) <= Exposed(l) + Adds(l, e)
  {
    hide SubmitStep, ApplyFill, Places, AwaitedDeals, OpenDeals;
    match e
    case Submit(request, approved, broker) =>
      SubmitExposed(l, request, approved, broker);
      SubmitKeepsPositions(l, request, approved, broker);
    case Fill(id, price, qty) =>
      if id in l.trades && Step(l, e) != l {
        PutAwaited(l.trades, id, Step(l, e).trades[id]);
        FillExposed(l.positions, FillOf(l.trades[id], price, qty));
      }
    case Reject(id, reason) =>
      if id in l.trades {
        PutAwaited(l.trades, id, Step(l, e).trades[id]);
      }
  }

  lemma FewerIn(a: set<int>, b: set<int>)
    requires a <= b
    ensures |a| <= |b|
  {
    assert b == a + (b - a);
  }

  lemma OneMore(a: set<int>, b: set<int>, more: set<int>)
    requires a <= b + more
    ensures |more| <= 1 ==> |a| <= |b| + |more|
    ensures more <= b ==> |a| <= |b|
  {
    FewerIn(a, b + more);
    if more <= b {
      assert b + more == b;
    }
  }

  lemma PlacesAnswersSubmitted(l: Ledger, request: TradeRequest, broker: BrokerReply)
    requires Places(l, request, false, broker)
    ensures
      var outcome := SubmitStep(l, request, false, broker).1;
      outcome.Recorded? && outcome.trade.status == Submitted
  {
    hide RequestBracket, HasOpenTrade, Qualifies, Label;
  }

  lemma SlotExposed(ctx: Context, slot: Slot, p: Progress)
    ensures
      var q := HandleSlot(ctx, slot, p);
      |Exposed(q.ledger)| - |q.summary.submitted| <= |Exposed(p.ledger)| - |p.summary.submitted|
  {
    hide Decision, SubmitStep, Exposed, Places, CooldownActive;
    var d := Decision(ctx, slot, p.openPositions);
    if d.Some? {
      var call := Submit(d.value, false, slot.broker);
      StepExposed(p.ledger, call);
      OneMore(Exposed(Step(p.ledger, call)), Exposed(p.ledger), Adds(p.ledger, call));
      if Places(p.ledger, d.value, false, slot.broker) {
        PlacesAnswersSubmitted(p.ledger, d.value, slot.broker);
      }
    }
  }

  lemma {:induction false} LoopExposed(ctx: Context, slots: seq<Slot>, p: Progress)
    ensures
      var q := HandleAll(ctx, slots, p);
      |Exposed(q.ledger)| - |q.summary.submitted| <= |Exposed(p.ledger)| - |p.summary.submitted|
  {
    hide HandleSlot, Exposed;
    if slots != [] && !p.raised {
      SlotExposed(ctx, slots[0], p);
      LoopExposed(ctx, slots[1..], HandleSlot(ctx, slots[0], p));
    }
  }

  /**
   What is sent starts from fewer than five exposed deals, and fills are
   reported for exposed deals only.
   */
  ghost predicate WithinCap(settings: Settings, w: World, a: Act) {
    match a
    case Cycle(c) => RunDailyCycle(settings, w, c).1.submitted == [] || |Exposed(w.ledger)| < MAX_CONCURRENT_POSITIONS
    case Approve(request, broker) =>
      !Places(w.ledger, request, true, broker) || |Exposed(w.ledger)| < MAX_CONCURRENT_POSITIONS
    case ReportFill(id, _, _) => id in w.ledger.trades ==> w.ledger.trades[id].dealId in Exposed(w.ledger)
    case _ => true
  }

  ghost predicate WithinCapRun(settings: Settings, w: World, acts: seq<Act>) {
    acts != [] ==>
      var front := acts[..|acts| - 1];
      WithinCapRun(settings, w, front) && WithinCap(settings, WorldAfter(settings, w, front), acts[|acts| - 1])
  }

  lemma CycleExposed(settings: Settings, w: World, c: CycleInput)
    requires settings.cooldownMin > 0
    ensures
      var (w', s, _) := RunDailyCycle(settings, w, c);
      |Exposed(w'.ledger)| <= |Exposed(w.ledger)| + |s.submitted| && |s.submitted| <= 1
  {
    CycleOrders(settings, w, c);
    hide HandleAll, LossHalts, Exposed;
    LoopExposed(ContextOf(settings, w, c), c.slots, Start(w));
  }

  lemma ActExposed(settings: Settings, w: World, a: Act)
    requires settings.cooldownMin > 0 && WithinCap(settings, w, a) && |Exposed(w.ledger)| <= MAX_CONCURRENT_POSITIONS
    ensures |Exposed(Apply(settings, w, a).ledger)| <= MAX_CONCURRENT_POSITIONS
  {
    hide RunDailyCycle, SubmitStep, FillStep, RejectStep, Exposed, Places;
    match a
    case Cycle(c) => CycleExposed(settings, w, c);
    case Approve(request, broker) => CallExposed(w.ledger, Submit(request, true, broker));
    case ReportFill(id, price, qty) => CallExposed(w.ledger, Event.Fill(id, price, qty));
    case ReportReject(id, reason) => CallExposed(w.ledger, Event.Reject(id, reason));
    case _ =>
  }

  lemma CallExposed(l: Ledger, e: Event)
    ensures |Exposed(Step(l, e))| <= |Exposed(l)| + |Adds(l, e)|
    ensures Adds(l, e) <= Exposed(l) ==> |Exposed(Step(l, e))| <= |Exposed(l)|
  {
    hide Step, Exposed, Places;
    StepExposed(l, e);
    OneMore(Exposed(Step(l, e)), Exposed(l), Adds(l, e));
  }

  /**
   The cap holds through every run, with the positions still to come counted in,
   if whatever is sent starts from fewer than five exposed deals.
   */
  lemma {:induction false} CapHolds(settings: Settings, w: World, acts: seq<Act>)
    requires settings.cooldownMin > 0 && Safe(w.ledger) && WithinCapRun(settings, w, acts)
    requires |Exposed(w.ledger)| <= MAX_CONCURRENT_POSITIONS
    ensures
      var l := WorldAfter(settings, w, acts).ledger;
      |Exposed(l)| <= MAX_CONCURRENT_POSITIONS && OpenCount(l.positions) <= MAX_CONCURRENT_POSITIONS
  {
    hide Apply, WithinCap, OpenCount, OpenDeals, AwaitedDeals;
    if acts != [] {
      CapHolds(settings, w, acts[..|acts| - 1]);
      ActExposed(settings, WorldAfter(settings, w, acts[..|acts| - 1]), acts[|acts| - 1]);
    }
    var l := WorldAfter(settings, w, acts).ledger;
    EveryRunIsSafe(settings, w, acts);
    OpenCountIsDeals(l.positions);
    FewerIn(OpenDeals(l.positions), Exposed(l));
  }

  // ----- without it there is no bound

  const MICROSECONDS_PER_DAY := 86_400_000_000

  /** A candidate that is decided, executed and accepted, offered again and again under other deals. */
  datatype Offer = Offer(candidate: DealCandidate, snapshot: PriceSnapshot, netLiquidation: real, broker: BrokerReply,
                         rampup: int)

  function FirstDecision(settings: Settings, o: Offer): Option<TradeRequest> {
    EvaluateCandidate(o.candidate, o.snapshot, o.netLiquidation, 0, o.rampup, settings.cfg, "t")
  }

  predicate Executes(settings: Settings, o: Offer) {
    var d := FirstDecision(settings, o);
    && settings.lossLimitPct > 0.0
    && d.Some? && !d.value.requiresApproval && Qualifies(d.value, o.broker)
    && RequestBracket(d.value, o.broker.baseOrderId).Ok?
  }

  function IdOf(i: nat): (id: string)
    ensures |id| == i
  {
    seq(i, _ => 'x')
  }

  function TimeOf(settings: Settings, i: int): int {
    i * (settings.cooldownMin * MICROSECONDS_PER_MINUTE)
  }

  function DayOf(settings: Settings, i: int): int {
    TimeOf(settings, i) / MICROSECONDS_PER_DAY
  }

  function SlotFor(o: Offer, i: nat): Slot {
    Slot(o.candidate.(dealId := i), Some(o.snapshot), IdOf(i), true, o.broker)
  }

  function InputFor(settings: Settings, o: Offer, i: nat): CycleInput {
    CycleInput([SlotFor(o, i)], o.netLiquidation, TimeOf(settings, i), DayOf(settings, i))
  }

  /** One cycle a cooldown apart, each with one candidate of a new deal. */
  function Orders(settings: Settings, o: Offer, n: nat): seq<Act> {
    if n == 0 then []
    else Orders(settings, o, n - 1) + [Cycle(InputFor(settings, o, n - 1))]
  }

  /** Their fills, once all are sent. */
  function Fills(n: nat): seq<Act> {
    if n == 0 then [] else Fills(n - 1) + [ReportFill(IdOf(n - 1), 1.0, 1)]
  }

  function NewWorld(o: Offer): World {
    World(EMPTY_LEDGER, SystemState(Some(o.rampup), None, None, None), false)
  }

  /** The first `n` deals have a BUY row each, and no other deal has a row. */
  ghost predicate Bought(trades: map<string, Trade>, n: nat) {
    && (forall i: nat :: i < n ==> IdOf(i) in trades && trades[IdOf(i)].dealId == i && trades[IdOf(i)].side == Buy)
    && (forall id :: id in trades ==> |id| < n && trades[id].dealId < n)
  }

  ghost predicate AllSent(settings: Settings, o: Offer, w: World, n: nat) {
    && Bought(w.ledger.trades, n) && w.ledger.positions == [] && !w.killed
    && w.system == if n == 0 then SystemState(Some(o.rampup), None, None, None)
                   else SystemState(Some(o.rampup), Some(o.netLiquidation), Some(DayOf(settings, n - 1)),
                                    Some(TimeOf(settings, n - 1)))
  }

  function RequestFor(settings: Settings, o: Offer, i: nat): TradeRequest
    requires Executes(settings, o)
  {
    FirstDecision(settings, o).value.(dealId := i, tradeId := IdOf(i))
  }

  lemma SameForEveryDeal(settings: Settings, o: Offer, ctx: Context, i: nat)
    requires Executes(settings, o)
    requires ctx.settings == settings && ctx.netLiquidation == o.netLiquidation && ctx.rampup == o.rampup
    ensures
      var request := RequestFor(settings, o, i);
      && Decision(ctx, SlotFor(o, i), 0) == Some(request)
      && !request.requiresApproval && request.side == Buy
      && Qualifies(request, o.broker) && RequestBracket(request, o.broker.baseOrderId).Ok?
  {
    hide Size, ReferencePrice, ComputeSpread, EntryLimitPrice, StopPrice, Bracket;
  }

  lemma SubmitPlaced(l: Ledger, request: TradeRequest, broker: BrokerReply)
    requires !request.requiresApproval && request.side == Buy
    requires Qualifies(request, broker) && RequestBracket(request, broker.baseOrderId).Ok?
    requires request.tradeId !in l.trades && !HasOpenTrade(l.trades, request.dealId)
    ensures
      var (l', outcome) := SubmitStep(l, request, false, broker);
      && outcome.Recorded? && outcome.trade.status == Submitted && outcome.trade.side == Buy
      && outcome.trade.dealId == request.dealId
      && l'.trades == l.trades[request.tradeId := outcome.trade] && l'.positions == l.positions
  {
    AcceptedHasQuantity(request, broker.baseOrderId);
    hide RequestBracket, HasOpenTrade, Qualifies, Label;
  }

  lemma SlotSends(settings: Settings, o: Offer, ctx: Context, p: Progress, n: nat)
    requires Executes(settings, o)
    requires ctx.settings == settings && ctx.netLiquidation == o.netLiquidation && ctx.rampup == o.rampup
    requires Bought(p.ledger.trades, n) && p.openPositions == 0
        && !CooldownActive(p.lastOrderTs, ctx.now, settings.cooldownMin)
    ensures
      var q := HandleSlot(ctx, SlotFor(o, n), p);
      && Bought(q.ledger.trades, n + 1) && q.ledger.positions == p.ledger.positions
      && q.lastOrderTs == Some(ctx.now) && |q.summary.submitted| == |p.summary.submitted| + 1
  {
    hide Decision, SubmitStep, RequestBracket, Qualifies, Executes, RequestFor;
    SameForEveryDeal(settings, o, ctx, n);
    var request := RequestFor(settings, o, n);
    assert request.tradeId == IdOf(n) && request.dealId == n by {
      RequestForIds(settings, o, n);
    }
    SubmitPlaced(p.ledger, request, o.broker);
  }

  lemma RequestForIds(settings: Settings, o: Offer, i: nat)
    requires Executes(settings, o)
    ensures RequestFor(settings, o, i).tradeId == IdOf(i) && RequestFor(settings, o, i).dealId == i
  {
    hide FirstDecision, Executes;
  }

  lemma CycleSends(settings: Settings, o: Offer, w: World, n: nat)
    requires Executes(settings, o) && AllSent(settings, o, w, n)
    ensures
      var c := InputFor(settings, o, n);
      AllSent(settings, o, RunDailyCycle(settings, w, c).0, n + 1) && |RunDailyCycle(settings, w, c).1.submitted| == 1
  {
    hide HandleSlot, Bought, Executes, SlotFor, DayOf;
    var c := InputFor(settings, o, n);
    var ctx := ContextOf(settings, w, c);
    assert settings.lossLimitPct > 0.0 by {
      LimitPositive(settings, o);
    }
    assert !LossHalts(settings, w, c);
    assert TimeOf(settings, n) - TimeOf(settings, n - 1) == settings.cooldownMin * MICROSECONDS_PER_MINUTE;
    SlotSends(settings, o, ctx, Start(w), n);
    assert c.slots[1..] == [];
    assert HandleAll(ctx, c.slots, Start(w)) == HandleSlot(ctx, SlotFor(o, n), Start(w));
  }

  lemma LimitPositive(settings: Settings, o: Offer)
    requires Executes(settings, o)
    ensures settings.lossLimitPct > 0.0
  {
  }

  lemma OrdersSnoc(settings: Settings, o: Offer, w: World, n: nat)
    ensures
      var c := InputFor(settings, o, n);
      WorldAfter(settings, w, Orders(settings, o, n + 1)) ==
      RunDailyCycle(settings, WorldAfter(settings, w, Orders(settings, o, n)), c).0
  {
    hide RunDailyCycle, InputFor;
    var acts := Orders(settings, o, n + 1);
    assert acts[..|acts| - 1] == Orders(settings, o, n);
  }

  lemma NothingSent(settings: Settings, o: Offer)
    ensures AllSent(settings, o, WorldAfter(settings, NewWorld(o), Orders(settings, o, 0)), 0)
  {
  }

  lemma {:induction false} OrdersSent(settings: Settings, o: Offer, n: nat)
    requires Executes(settings, o)
    ensures AllSent(settings, o, WorldAfter(settings, NewWorld(o), Orders(settings, o, n)), n)
  {
    hide *;
    if n == 0 {
      NothingSent(settings, o);
    } else {
      OrdersSent(settings, o, n - 1);
      CycleSends(settings, o, WorldAfter(settings, NewWorld(o), Orders(settings, o, n - 1)), n - 1);
      OrdersSnoc(settings, o, NewWorld(o), n - 1);
    }
  }

  /** The first `j` deals have been filled. */
  ghost predicate Filled(w: World, n: nat, j: nat) {
    && Bought(w.ledger.trades, n) && OpenCount(w.ledger.positions) == j
    && forall deal :: deal >= j ==> OpenOf(w.ledger.positions, deal).None?
  }

  lemma FillOne(settings: Settings, w: World, n: nat, j: nat)
    requires j < n && Filled(w, n, j)
    ensures Filled(Apply(settings, w, ReportFill(IdOf(j), 1.0, 1)), n, j + 1)
  {
    hide Averaged, OpenCount;
    var trade := w.ledger.trades[IdOf(j)];
    var fill := FillOf(trade, 1.0, 1);
    FillOpenCount(w.ledger.positions, fill);
    forall deal | deal >= j + 1 ensures OpenOf(After(w.ledger.positions, fill), deal).None? {
      FillFacts(w.ledger.positions, fill, deal);
    }
  }

  lemma NoFills(settings: Settings, w: World)
    ensures WorldAfter(settings, w, Fills(0)) == w
  {
  }

  lemma FillsSnoc(settings: Settings, w: World, j: nat)
    ensures WorldAfter(settings, w, Fills(j + 1)) ==
        Apply(settings, WorldAfter(settings, w, Fills(j)), ReportFill(IdOf(j), 1.0, 1))
  {
    hide Apply;
    var acts := Fills(j + 1);
    assert acts[..|acts| - 1] == Fills(j);
  }

  lemma {:induction false} AllFilled(settings: Settings, w: World, n: nat, j: nat)
    requires j <= n && Filled(w, n, 0)
    ensures Filled(WorldAfter(settings, w, Fills(j)), n, j)
  {
    hide *;
    if j == 0 {
      NoFills(settings, w);
    } else {
      AllFilled(settings, w, n, j - 1);
      FillOne(settings, WorldAfter(settings, w, Fills(j - 1)), n, j - 1);
      FillsSnoc(settings, w, j - 1);
    }
  }

  /**
   Without that discipline there is no bound at all: any number of cycles, a
   cooldown apart and each under the cap as it counts, followed by the fills of
   what they sent, opens that many positions.
   */
  lemma CapHasNoBound(settings: Settings, o: Offer, n: nat)
    requires Executes(settings, o)
    ensures
      var sent := WorldAfter(settings, NewWorld(o), Orders(settings, o, n));
      && OpenCount(sent.ledger.positions) == 0
      && OpenCount(WorldAfter(settings, sent, Fills(n)).ledger.positions) == n
  {
    hide Executes, Bought;
    OrdersSent(settings, o, n);
    AllFilled(settings, WorldAfter(settings, NewWorld(o), Orders(settings, o, n)), n, n);
  }

  /** Such candidates exist. */
  lemma AnOfferExecutes() returns (settings: Settings, o: Offer)
    ensures settings == Settings(0.02, 60, DEFAULT_CONFIG) && Executes(settings, o)
  {
    var candidate, snapshot, request := OrderCanExceedCap();
    settings := Settings(0.02, 60, DEFAULT_CONFIG);
    o := Offer(candidate, snapshot, 2000000.0, BrokerReply(true, 1), 5);
    hide EvaluateCandidate, RequestBracket, OrderNotional;
  }
}
