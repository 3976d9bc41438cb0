/**
 The daily cycle as a transition of the whole trading system
 (src/trading/scheduler.py): what the guards allow, what is decided, what is
 sent. Prices, fresh trade ids, the clock and the broker's answers are inputs.
 */
module TradingCycle {
  import opened Common
  import opened PositionSizing
  import opened DecisionEngine
  import opened PositionBook
  import opened TradeLedger
  import opened Safeguards

  datatype Settings = Settings(lossLimitPct: real, cooldownMin: int, cfg: TradingConfig)

  /** One candidate as a cycle meets it: its price, its fresh id, and the broker at that moment. */
  datatype Slot = Slot(candidate: DealCandidate, snapshot: Option<PriceSnapshot>, tradeId: string, brokerUp: bool,
                       broker: BrokerReply)

  datatype CycleInput = CycleInput(slots: seq<Slot>, netLiquidation: real, now: int, today: int)

  datatype Halt = KillSwitchActive | DailyLoss

  /** `decisions` keeps each emitted request whole. */
  datatype Summary = Summary(
    halted: Option<Halt>, decisions: seq<TradeRequest>, submitted: seq<string>, pendingApproval: seq<string>,
    skipped: nat, executionSkipped: nat)

  const NO_SUMMARY := Summary(None, [], [], [], 0, 0)

  datatype Context = Context(settings: Settings, netLiquidation: real, rampup: int, now: int)

  /** Where the loop over the candidates stands; `raised` once a refused bracket has ended it. */
  datatype Progress = Progress(ledger: Ledger, lastOrderTs: Option<int>, openPositions: int, summary: Summary,
                               raised: bool)

  function Decision(ctx: Context, slot: Slot, openPositions: int): Option<TradeRequest> {
    if slot.snapshot.None? then None
    else
      EvaluateCandidate(slot.candidate, slot.snapshot.value, ctx.netLiquidation, openPositions, ctx.rampup,
                        ctx.settings.cfg, slot.tradeId)
  }

  function Skip(s: Summary): Summary {
    s.(skipped := s.skipped + 1)
  }

  function SkipExecution(s: Summary): Summary {
    s.(executionSkipped := s.executionSkipped + 1)
  }

  /** Bookkeeping for a trade that `submit` returned. */
  function HandleTrade(ctx: Context, p: Progress, request: TradeRequest, trade: Trade): Progress {
    if trade.status == Pending && request.requiresApproval then
      p.(summary := p.summary.(pendingApproval := p.summary.pendingApproval + [request.tradeId]))
    else if trade.status == Submitted then
      p.(openPositions := p.openPositions + 1, lastOrderTs := Some(ctx.now),
         summary := p.summary.(submitted := p.summary.submitted + [request.tradeId]))
    else
      p.(summary := Skip(p.summary))
  }

  /** Optional paper execution of a decision that has been surfaced already. */
  function Execute(ctx: Context, slot: Slot, p: Progress, request: TradeRequest): Progress {
    if !slot.brokerUp || CooldownActive(p.lastOrderTs, ctx.now, ctx.settings.cooldownMin) then
      p.(summary := SkipExecution(p.summary))
    else
      var (ledger, outcome) := SubmitStep(p.ledger, request, false, slot.broker);
      var q := p.(ledger := ledger);
      match outcome
      case DuplicateSkipped => q.(summary := SkipExecution(q.summary))
      case RowRefused => q.(raised := true)
      case BracketRefused(_) => q.(raised := true)
      case Recorded(trade) => HandleTrade(ctx, q, request, trade)
  }

  function HandleSlot(ctx: Context, slot: Slot, p: Progress): Progress {
    match Decision(ctx, slot, p.openPositions)
    case None => p.(summary := Skip(p.summary))
    case Some(request) =>
      Execute(ctx, slot, p.(summary := p.summary.(decisions := p.summary.decisions + [request])), request)
  }

  function HandleAll(ctx: Context, slots: seq<Slot>, p: Progress): Progress {
    if slots == [] || p.raised then p else HandleAll(ctx, slots[1..], HandleSlot(ctx, slots[0], p))
  }

  datatype World = World(ledger: Ledger, system: SystemState, killed: bool)

  function ContextOf(settings: Settings, w: World, c: CycleInput): Context {
    Context(settings, c.netLiquidation, Rampup(w.system), c.now)
  }

  function Start(w: World): Progress {
    Progress(w.ledger, w.system.lastOrderTs, OpenCount(w.ledger.positions), NO_SUMMARY, false)
  }

  function DayBaseline(w: World, c: CycleInput): real {
    WithDailyBaseline(w.system, c.netLiquidation, c.today).1
  }

  predicate LossHalts(settings: Settings, w: World, c: CycleInput) {
    DailyLossBreached(c.netLiquidation, DayBaseline(w, c), settings.lossLimitPct)
  }

  function RunDailyCycle(settings: Settings, w: World, c: CycleInput): (World, Summary, bool) {
    if w.killed then (w, NO_SUMMARY.(halted := Some(KillSwitchActive)), false)
    else
      var system := WithDailyBaseline(w.system, c.netLiquidation, c.today).0;
      if LossHalts(settings, w, c) then
        (w.(system := system, killed := true), NO_SUMMARY.(halted := Some(DailyLoss)), false)
      else
        var p := HandleAll(ContextOf(settings, w, c), c.slots, Start(w));
        (World(p.ledger, system.(lastOrderTs := p.lastOrderTs), false), p.summary, p.raised)
  }

  // ----- every candidate is accounted for once

  function Accounted(s: Summary): nat {
    s.skipped + s.executionSkipped + |s.submitted| + |s.pendingApproval|
  }

  lemma {:induction false} EveryCandidateCounted(ctx: Context, slots: seq<Slot>, p: Progress)
    requires !p.raised
    ensures
      var q := HandleAll(ctx, slots, p);
      Accounted(q.summary) <= Accounted(p.summary) + |slots|
      && (!q.raised ==> Accounted(q.summary) == Accounted(p.summary) + |slots|)
  {
    hide Decision, SubmitStep, CooldownActive;
    if slots != [] {
      var q := HandleSlot(ctx, slots[0], p);
      if !q.raised {
        EveryCandidateCounted(ctx, slots[1..], q);
      }
    }
  }

  // ----- decisions do not depend on the broker, until the cap

  function WithoutBroker(slots: seq<Slot>): (r: seq<Slot>)
    ensures |r| == |slots|
  {
    seq(|slots|, i requires 0 <= i < |slots| => slots[i].(brokerUp := false))
  }

  /** `p` (with a broker) has decided what `q` (without) has, or has stopped deciding and is behind. */
  ghost predicate Behind(p: Progress, q: Progress) {
    && !q.raised && q.openPositions <= p.openPositions && p.summary.halted == q.summary.halted
    && p.summary.decisions <= q.summary.decisions
    && (!p.raised && p.openPositions < MAX_CONCURRENT_POSITIONS ==> p.summary.decisions == q.summary.decisions)
  }

  lemma ExecuteKeepsDecisions(ctx: Context, slot: Slot, p: Progress, request: TradeRequest)
    ensures
      var q := Execute(ctx, slot, p, request);
      && q.summary.decisions == p.summary.decisions && q.summary.halted == p.summary.halted
      && p.openPositions <= q.openPositions
      && (!slot.brokerUp ==> q == p.(summary := SkipExecution(p.summary)))
  {
    hide SubmitStep, CooldownActive;
  }

  lemma SlotKeepsBehind(ctx: Context, slot: Slot, p: Progress, q: Progress)
    requires Behind(p, q) && !p.raised
    ensures Behind(HandleSlot(ctx, slot, p), HandleSlot(ctx, slot.(brokerUp := false), q))
  {
    hide Execute, EvaluateCandidate;
    var slot' := slot.(brokerUp := false);
    var d, d' := Decision(ctx, slot, p.openPositions), Decision(ctx, slot', q.openPositions);
    if slot.snapshot.Some? {
      OnlyTheCapMatters(slot.candidate, slot.snapshot.value, ctx.netLiquidation, q.openPositions, p.openPositions,
                        ctx.rampup, ctx.settings.cfg, slot.tradeId);
    }
    if d.Some? {
      ExecuteKeepsDecisions(ctx, slot, p.(summary := p.summary.(decisions := p.summary.decisions + [d.value])),
                            d.value);
    }
    if d'.Some? {
      ExecuteKeepsDecisions(ctx, slot', q.(summary := q.summary.(decisions := q.summary.decisions + [d'.value])),
                            d'.value);
    }
  }

  lemma AloneStaysAhead(ctx: Context, slots: seq<Slot>, p: Progress, q: Progress)
    requires Behind(p, q) && p.raised
    ensures Behind(p, HandleAll(ctx, WithoutBroker(slots), q))
  {
    hide EvaluateCandidate, Execute;
    if slots != [] {
      var slot := slots[0].(brokerUp := false);
      assert WithoutBroker(slots)[0] == slot && WithoutBroker(slots)[1..] == WithoutBroker(slots[1..]);
      var d := Decision(ctx, slot, q.openPositions);
      if d.Some? {
        ExecuteKeepsDecisions(ctx, slot, q.(summary := q.summary.(decisions := q.summary.decisions + [d.value])),
                              d.value);
      }
      AloneStaysAhead(ctx, slots[1..], p, HandleSlot(ctx, slot, q));
    }
  }

  lemma {:induction false} TwoLoops(ctx: Context, slots: seq<Slot>, p: Progress, q: Progress)
    requires Behind(p, q) && !p.raised
    ensures Behind(HandleAll(ctx, slots, p), HandleAll(ctx, WithoutBroker(slots), q))
    decreases |slots|
  {
    hide HandleSlot, Behind;
    assert !q.raised by { BehindRuns(p, q); }
    if slots != [] {
      var p', q' := HandleSlot(ctx, slots[0], p), HandleSlot(ctx, slots[0].(brokerUp := false), q);
      assert WithoutBroker(slots)[0] == slots[0].(brokerUp := false)
          && WithoutBroker(slots)[1..] == WithoutBroker(slots[1..]);
      SlotKeepsBehind(ctx, slots[0], p, q);
      if p'.raised {
        AloneStaysAhead(ctx, slots[1..], p', q');
      } else {
        TwoLoops(ctx, slots[1..], p', q');
      }
    }
  }

  lemma BehindRuns(p: Progress, q: Progress)
    requires Behind(p, q)
    ensures !q.raised
  {
  }

  /**
   The two-run comparison: whatever the broker does, a cycle halts exactly when
   it would halt without one, and its decisions are a prefix of those it would
   take without one; they are the same unless a bracket was refused or the
   position cap was reached on the way.
   */
  lemma BrokerOnlyTruncatesDecisions(settings: Settings, w: World, c: CycleInput)
    ensures
      var (w', s, raised) := RunDailyCycle(settings, w, c);
      var (w0, s0, raised0) := RunDailyCycle(settings, w, c.(slots := WithoutBroker(c.slots)));
      && s.halted == s0.halted
      && s.decisions <= s0.decisions
      && !raised0
      && (!raised && OpenCount(w.ledger.positions) + |s.submitted| < MAX_CONCURRENT_POSITIONS ==>
          s.decisions == s0.decisions)
  {
    hide LossHalts, HandleAll;
    HaltsAlike(settings, w, c);
    if !w.killed && !LossHalts(settings, w, c) {
      var ctx := ContextOf(settings, w, c);
      assert ctx == ContextOf(settings, w, c.(slots := WithoutBroker(c.slots)));
      TwoLoops(ctx, c.slots, Start(w), Start(w));
      OpenCountGrowsBySubmissions(ctx, c.slots, Start(w));
    }
  }

  lemma HaltsAlike(settings: Settings, w: World, c: CycleInput)
    ensures LossHalts(settings, w, c) == LossHalts(settings, w, c.(slots := WithoutBroker(c.slots)))
  {
  }

  lemma {:induction false} OpenCountGrowsBySubmissions(ctx: Context, slots: seq<Slot>, p: Progress)
    ensures
      var q := HandleAll(ctx, slots, p);
      q.openPositions - |q.summary.submitted| == p.openPositions - |p.summary.submitted|
  {
    hide Decision, SubmitStep, CooldownActive;
    if slots != [] && !p.raised {
      OpenCountGrowsBySubmissions(ctx, slots[1..], HandleSlot(ctx, slots[0], p));
    }
  }

  /** Without a broker a cycle decides, and changes neither ledger nor order clock. */
  lemma NoBrokerNoOrders(settings: Settings, w: World, c: CycleInput)
    requires forall i :: 0 <= i < |c.slots| ==> !c.slots[i].brokerUp
    ensures
      var w' := RunDailyCycle(settings, w, c).0;
      w'.ledger == w.ledger && w'.system.lastOrderTs == w.system.lastOrderTs
  {
    hide HandleAll, LossHalts;
    LoopWithoutBroker(ContextOf(settings, w, c), c.slots, Start(w));
  }

  lemma {:induction false} LoopWithoutBroker(ctx: Context, slots: seq<Slot>, p: Progress)
    requires forall i :: 0 <= i < |slots| ==> !slots[i].brokerUp
    ensures
      var q := HandleAll(ctx, slots, p);
      q.ledger == p.ledger && q.lastOrderTs == p.lastOrderTs
  {
    hide Decision, SubmitStep;
    if slots != [] && !p.raised {
      LoopWithoutBroker(ctx, slots[1..], HandleSlot(ctx, slots[0], p));
    }
  }
}
