/**
 Whole runs of the trading system: daily cycles mixed with approvals, fills,
 rejections, ramp-up validations and flips of the kill switch, in any order and
 with any clock. What every run keeps.
 */
module TradingRuns {
  import opened Common
  import opened Products
  import opened PositionSizing
  import opened DecisionEngine
  import opened PositionBook
  import opened TradeLedger
  import opened Safeguards
  import opened TradingCycle

  datatype Act =
    | Cycle(input: CycleInput)
    | Approve(request: TradeRequest, broker: BrokerReply)
    | ReportFill(tradeId: string, price: real, qty: int)
    | ReportReject(tradeId: string, reason: string)
    | ValidateTrade
    | Activate
    | Deactivate

  function Apply(settings: Settings, w: World, a: Act): World {
    match a
    case Cycle(c) => RunDailyCycle(settings, w, c).0
    case Approve(request, broker) => w.(ledger := SubmitStep(w.ledger, request, true, broker).0)
    case ReportFill(id, price, qty) => w.(ledger := FillStep(w.ledger, id, price, qty))
    case ReportReject(id, reason) => w.(ledger := RejectStep(w.ledger, id, reason))
    case ValidateTrade => w.(system := WithValidation(w.system))
    case Activate => w.(killed := true)
    case Deactivate => w.(killed := false)
  }

  function WorldAfter(settings: Settings, w: World, acts: seq<Act>): World {
    if acts == [] then w else Apply(settings, WorldAfter(settings, w, acts[..|acts| - 1]), acts[|acts| - 1])
  }

  // ----- order spacing

  /** The clock readings at which one act's cycle submitted an order. */
  function OrderTimesOf(settings: Settings, w: World, a: Act): seq<int> {
    if a.Cycle? then seq(|RunDailyCycle(settings, w, a.input).1.submitted|, i => a.input.now) else []
  }

  function OrderTimes(settings: Settings, w: World, acts: seq<Act>): seq<int> {
    if acts == [] then []
    else
      var front := acts[..|acts| - 1];
      OrderTimes(settings, w, front) + OrderTimesOf(settings, WorldAfter(settings, w, front), acts[|acts| - 1])
  }

  /** The orders sent in between: none, or the legs of one bracket. */
  ghost predicate SentAtMostOne(before: seq<PlacedOrder>, after: seq<PlacedOrder>) {
    after == before || exists id, legs :: OneBracket(legs) && after == before + Label(id, legs)
  }

  /** One order at most, and then at a moment when no earlier order was cooling down. */
  ghost predicate OneOrderAtMost(ctx: Context, p: Progress, q: Progress) {
    || (|q.summary.submitted| == |p.summary.submitted| && q.lastOrderTs == p.lastOrderTs
        && q.ledger.placed == p.ledger.placed)
    || (&& |q.summary.submitted| == |p.summary.submitted| + 1
        && q.lastOrderTs == Some(ctx.now)
        && SentAtMostOne(p.ledger.placed, q.ledger.placed)
        && !CooldownActive(p.lastOrderTs, ctx.now, ctx.settings.cooldownMin))
  }

  lemma SlotOrders(ctx: Context, slot: Slot, p: Progress)
    ensures OneOrderAtMost(ctx, p, HandleSlot(ctx, slot, p))
  {
    hide Decision, CooldownActive, SubmitStep, SentAtMostOne;
    var d := Decision(ctx, slot, p.openPositions);
    if d.Some? {
      SubmittedIfPlaced(p.ledger, d.value, slot.broker);
      SubmitSendsAtMostOne(p.ledger, d.value, slot.broker);
    }
  }

  lemma SubmitSendsAtMostOne(l: Ledger, request: TradeRequest, broker: BrokerReply)
    ensures SentAtMostOne(l.placed, SubmitStep(l, request, false, broker).0.placed)
  {
    hide SubmitStep, Places, RequestBracket, OneBracket, Label;
    var call := Submit(request, false, broker);
    StepSends(l, call);
    assert Step(l, call) == SubmitStep(l, request, false, broker).0;
    if Places(l, request, false, broker) {
      PlacesAccepted(l, request, false, broker);
    }
  }

  /** A call that sends a bracket answers with a submitted row. */
  lemma SubmittedIfPlaced(l: Ledger, request: TradeRequest, broker: BrokerReply)
    ensures
      var (l', outcome) := SubmitStep(l, request, false, broker);
      l'.placed == l.placed || (outcome.Recorded? && outcome.trade.status == Submitted)
  {
    hide RequestBracket, HasOpenTrade, Label, Qualifies;
  }

  lemma {:induction false} LoopOrders(ctx: Context, slots: seq<Slot>, p: Progress)
    requires ctx.settings.cooldownMin > 0
    ensures OneOrderAtMost(ctx, p, HandleAll(ctx, slots, p))
  {
    hide HandleSlot, SentAtMostOne;
    if slots != [] && !p.raised {
      SlotOrders(ctx, slots[0], p);
      LoopOrders(ctx, slots[1..], HandleSlot(ctx, slots[0], p));
    }
  }

  /** With a positive cooldown a cycle submits at most one order, and only once the last one has cooled down. */
  lemma CycleOrders(settings: Settings, w: World, c: CycleInput)
    requires settings.cooldownMin > 0
    ensures
      var (w', s, _) := RunDailyCycle(settings, w, c);
      || (s.submitted == [] && w'.system.lastOrderTs == w.system.lastOrderTs && w'.ledger.placed == w.ledger.placed)
      || (&& |s.submitted| == 1 && w'.system.lastOrderTs == Some(c.now)
          && SentAtMostOne(w.ledger.placed, w'.ledger.placed)
          && !CooldownActive(w.system.lastOrderTs, c.now, settings.cooldownMin))
  {
    hide HandleAll, LossHalts, SentAtMostOne;
    LoopOrders(ContextOf(settings, w, c), c.slots, Start(w));
  }

  /**
   So with a positive cooldown and fewer than four open positions the broker
   makes no difference to a cycle's decisions, unless it refuses a bracket.
   */
  lemma BrokerLeavesDecisionsAlone(settings: Settings, w: World, c: CycleInput)
    requires settings.cooldownMin > 0 && OpenCount(w.ledger.positions) < 4
    requires !RunDailyCycle(settings, w, c).2
    ensures
      RunDailyCycle(settings, w, c).1.decisions ==
      RunDailyCycle(settings, w, c.(slots := WithoutBroker(c.slots))).1.decisions
  {
    hide RunDailyCycle, OpenCount, WithoutBroker;
    BrokerOnlyTruncatesDecisions(settings, w, c);
    CycleOrders(settings, w, c);
  }

  /** Each time at least `gap` after the one before, the first after `start` if there is one. */
  ghost predicate SpacedFrom(start: Option<int>, times: seq<int>, gap: int) {
    && (times != [] && start.Some? ==> times[0] - start.value >= gap)
    && forall i :: 0 <= i < |times| - 1 ==> times[i + 1] - times[i] >= gap
  }

  function LastOf(start: Option<int>, times: seq<int>): Option<int> {
    if times == [] then start else Some(times[|times| - 1])
  }

  lemma SpacedAppend(start: Option<int>, times: seq<int>, now: int, gap: int)
    requires SpacedFrom(start, times, gap)
    requires LastOf(start, times).Some? ==> now - LastOf(start, times).value >= gap
    ensures SpacedFrom(start, times + [now], gap) && LastOf(start, times + [now]) == Some(now)
  {
  }

  /**
   Order spacing: whatever the clock reads, forwards or backwards, the times at
   which cycles submit orders rise by at least the cooldown, starting from the
   last order on record.
   */
  lemma {:induction false} OrdersAreSpaced(settings: Settings, w: World, acts: seq<Act>)
    requires settings.cooldownMin > 0
    ensures SpacedFrom(w.system.lastOrderTs, OrderTimes(settings, w, acts),
                       settings.cooldownMin * MICROSECONDS_PER_MINUTE)
    ensures WorldAfter(settings, w, acts).system.lastOrderTs ==
        LastOf(w.system.lastOrderTs, OrderTimes(settings, w, acts))
  {
    hide SpacedFrom, LastOf, Apply, OrderTimesOf;
    if acts == [] {
      SpacedNothing(w.system.lastOrderTs, settings.cooldownMin * MICROSECONDS_PER_MINUTE);
    } else {
      var front, a := acts[..|acts| - 1], acts[|acts| - 1];
      var times, gap := OrderTimes(settings, w, front), settings.cooldownMin * MICROSECONDS_PER_MINUTE;
      var before := WorldAfter(settings, w, front);
      OrdersAreSpaced(settings, w, front);
      ActOrders(settings, before, a);
      if OrderTimesOf(settings, before, a) == [] {
        assert OrderTimes(settings, w, acts) == times;
      } else {
        SpacedAppend(w.system.lastOrderTs, times, OrderTimesOf(settings, before, a)[0], gap);
      }
    }
  }

  lemma SpacedNothing(start: Option<int>, gap: int)
    ensures SpacedFrom(start, [], gap) && LastOf(start, []) == start
  {
  }

  lemma ActOrders(settings: Settings, w: World, a: Act)
    requires settings.cooldownMin > 0
    ensures
      var times, gap := OrderTimesOf(settings, w, a), settings.cooldownMin * MICROSECONDS_PER_MINUTE;
      || (times == [] && Apply(settings, w, a).system.lastOrderTs == w.system.lastOrderTs)
      || (&& |times| == 1 && times == [times[0]]
          && Apply(settings, w, a).system.lastOrderTs == Some(times[0])
          && (w.system.lastOrderTs.Some? ==> times[0] - w.system.lastOrderTs.value >= gap))
  {
    hide RunDailyCycle;
    if a.Cycle? {
      CycleOrders(settings, w, a.input);
    }
  }

  // ----- daily loss

  /** NetLiquidation at the day's first cycle that got past the kill-switch check. */
  function FirstOfDay(settings: Settings, w: World, acts: seq<Act>, day: int): Option<real> {
    if acts == [] then None
    else
      var front, a := acts[..|acts| - 1], acts[|acts| - 1];
      var earlier := FirstOfDay(settings, w, front, day);
      if earlier.Some? then earlier
      else if a.Cycle? && a.input.today == day && !WorldAfter(settings, w, front).killed
        then Some(a.input.netLiquidation)
      else None
  }

  /** The baseline a day is measured against: the one on record at the start, or else the day's first reading. */
  function BaselineOn(settings: Settings, w: World, acts: seq<Act>, day: int): Option<real> {
    if w.system.baselineDate == Some(day) then w.system.baseline else FirstOfDay(settings, w, acts, day)
  }

  /** Cycle dates never go back, nor behind the date on record at the start. */
  ghost predicate DatesRise(w: World, acts: seq<Act>) {
    && (forall i, j :: 0 <= i < j < |acts| && acts[i].Cycle? && acts[j].Cycle? ==>
        acts[i].input.today <= acts[j].input.today)
    && (forall i :: 0 <= i < |acts| && acts[i].Cycle? && w.system.baselineDate.Some? ==>
        w.system.baselineDate.value <= acts[i].input.today)
  }

  /** What the state rows say about the cycles so far, none of them later than `bound`. */
  ghost predicate BaselineKnown(settings: Settings, w: World, acts: seq<Act>, bound: int) {
    var s := WorldAfter(settings, w, acts).system;
    && (forall day :: FirstOfDay(settings, w, acts, day).Some? ==> s.baselineDate.Some? && day <= s.baselineDate.value)
    && (w.system.baselineDate.Some? ==> s.baselineDate.Some? && w.system.baselineDate.value <= s.baselineDate.value)
    && (s.baselineDate == w.system.baselineDate ==> s.baseline == w.system.baseline)
    && (s.baselineDate.Some? && s.baselineDate != w.system.baselineDate ==>
          s.baselineDate.value <= bound && s.baseline.Some?
              && FirstOfDay(settings, w, acts, s.baselineDate.value) == s.baseline)
  }

  lemma CycleState(settings: Settings, w: World, c: CycleInput)
    ensures
      var (w', s, _) := RunDailyCycle(settings, w, c);
      && w'.system.baseline ==
         (if w.killed then w.system else WithDailyBaseline(w.system, c.netLiquidation, c.today).0).baseline
      && w'.system.baselineDate ==
         (if w.killed then w.system else WithDailyBaseline(w.system, c.netLiquidation, c.today).0).baselineDate
  {
    hide HandleAll, LossHalts;
  }

  lemma FirstOfDayStep(settings: Settings, w: World, acts: seq<Act>)
    requires acts != []
    ensures
      var front, a := acts[..|acts| - 1], acts[|acts| - 1];
      forall day ::
        FirstOfDay(settings, w, acts, day) ==
        if FirstOfDay(settings, w, front, day).Some? then FirstOfDay(settings, w, front, day)
        else if a.Cycle? && a.input.today == day && !WorldAfter(settings, w, front).killed
          then Some(a.input.netLiquidation)
        else None
  {
    hide WorldAfter;
  }

  lemma {:induction false} BaselineFollowed(settings: Settings, w: World, acts: seq<Act>, bound: int)
    requires DatesRise(w, acts)
    requires forall i :: 0 <= i < |acts| && acts[i].Cycle? ==> acts[i].input.today <= bound
    ensures BaselineKnown(settings, w, acts, bound)
  {
    if acts != [] {
      var front, a := acts[..|acts| - 1], acts[|acts| - 1];
      assert forall i :: 0 <= i < |front| ==> front[i] == acts[i];
      assert acts[|front|] == a;
      BaselineFollowed(settings, w, front, if a.Cycle? then a.input.today else bound);
      hide RunDailyCycle, FirstOfDay;
      FirstOfDayStep(settings, w, acts);
      if a.Cycle? {
        CycleState(settings, WorldAfter(settings, w, front), a.input);
      }
    }
  }

  /**
   Daily-loss safety: a cycle that is not halted, so any cycle that submits, has
   NetLiquidation strictly above the limit below that day's baseline, which is
   the one on record for a day already begun and otherwise the day's first reading.
   */
  lemma TradingMeansNoBreach(settings: Settings, w: World, acts: seq<Act>, c: CycleInput)
    requires DatesRise(w, acts + [Cycle(c)])
    requires RunDailyCycle(settings, WorldAfter(settings, w, acts), c).1.halted.None?
    ensures
      var baseline := BaselineOn(settings, w, acts + [Cycle(c)], c.today);
      && (baseline.Some? && baseline.value > 0.0 ==>
          c.netLiquidation > Times(1.0 - settings.lossLimitPct, baseline.value))
      && (w.system.baselineDate != Some(c.today) ==> baseline.Some?)
  {
    hide *;
    NotHalted(settings, WorldAfter(settings, w, acts), c);
    BaselineMeasured(settings, w, acts, c);
    DailyLossBreachedIff(c.netLiquidation, DayBaseline(WorldAfter(settings, w, acts), c), settings.lossLimitPct);
  }

  /** The baseline a cycle is measured against is that of its day. */
  lemma BaselineMeasured(settings: Settings, w: World, acts: seq<Act>, c: CycleInput)
    requires DatesRise(w, acts + [Cycle(c)]) && !WorldAfter(settings, w, acts).killed
    ensures
      var baseline := BaselineOn(settings, w, acts + [Cycle(c)], c.today);
      && (baseline.Some? ==> DayBaseline(WorldAfter(settings, w, acts), c) == baseline.value)
      && (w.system.baselineDate != Some(c.today) ==> baseline.Some?)
  {
    hide DatesRise, WorldAfter, FirstOfDay;
    var all := acts + [Cycle(c)];
    assert all[..|all| - 1] == acts && all[|acts|] == Cycle(c);
    DatesBefore(w, acts, c);
    BaselineFollowed(settings, w, acts, c.today);
    FirstOfDayStep(settings, w, all);
  }

  lemma DatesBefore(w: World, acts: seq<Act>, c: CycleInput)
    requires DatesRise(w, acts + [Cycle(c)])
    ensures DatesRise(w, acts)
    ensures forall i :: 0 <= i < |acts| && acts[i].Cycle? ==> acts[i].input.today <= c.today
    ensures w.system.baselineDate.Some? ==> w.system.baselineDate.value <= c.today
  {
    var all := acts + [Cycle(c)];
    assert forall i :: 0 <= i < |acts| ==> acts[i] == all[i];
    assert all[|acts|] == Cycle(c);
  }

  lemma NotHalted(settings: Settings, w: World, c: CycleInput)
    requires RunDailyCycle(settings, w, c).1.halted.None?
    ensures !w.killed && !DailyLossBreached(c.netLiquidation, DayBaseline(w, c), settings.lossLimitPct)
  {
    hide HandleAll, DailyLossBreached;
  }

  // ----- halts latch

  function DecisionsOf(settings: Settings, w: World, acts: seq<Act>): seq<TradeRequest> {
    if acts == [] then []
    else
      var front, a := acts[..|acts| - 1], acts[|acts| - 1];
      DecisionsOf(settings, w, front)
      + if a.Cycle? then RunDailyCycle(settings, WorldAfter(settings, w, front), a.input).1.decisions else []
  }

  /** The acts with the cycles taken out. */
  function WithoutCycles(acts: seq<Act>): seq<Act> {
    if acts == [] then []
    else
      var front, a := WithoutCycles(acts[..|acts| - 1]), acts[|acts| - 1];
      if a.Cycle? then front else front + [a]
  }

  /** While the switch is on, cycles might as well not run: they decide nothing, order nothing, change nothing. */
  lemma {:induction false} KilledCyclesAreInert(settings: Settings, w: World, acts: seq<Act>)
    requires w.killed && Deactivate !in acts
    ensures
      && WorldAfter(settings, w, acts).killed
      && DecisionsOf(settings, w, acts) == []
      && OrderTimes(settings, w, acts) == []
      && WorldAfter(settings, w, acts) == WorldAfter(settings, w, WithoutCycles(acts))
  {
    hide RunDailyCycle;
    if acts != [] {
      var front, a := acts[..|acts| - 1], acts[|acts| - 1];
      assert a in acts;
      assert forall b :: b in front ==> b in acts;
      KilledCyclesAreInert(settings, w, front);
      if a.Cycle? {
        KilledCycle(settings, WorldAfter(settings, w, front), a.input);
      } else {
        var rest := WithoutCycles(acts);
        assert rest[..|rest| - 1] == WithoutCycles(front) && rest[|rest| - 1] == a;
      }
    }
  }

  lemma KilledCycle(settings: Settings, w: World, c: CycleInput)
    requires w.killed
    ensures RunDailyCycle(settings, w, c) == (w, NO_SUMMARY.(halted := Some(KillSwitchActive)), false)
  {
  }

  /** A daily-loss halt decides and orders nothing and arms the switch, so no cycle does until it is taken off. */
  lemma DailyLossLatches(settings: Settings, w: World, c: CycleInput, acts: seq<Act>)
    requires RunDailyCycle(settings, w, c).1.halted == Some(DailyLoss) && Deactivate !in acts
    ensures
      var (halted, s, raised) := RunDailyCycle(settings, w, c);
      && s == NO_SUMMARY.(halted := Some(DailyLoss)) && !raised && halted.ledger == w.ledger
      && DecisionsOf(settings, halted, acts) == []
      && OrderTimes(settings, halted, acts) == []
      && WorldAfter(settings, halted, acts) == WorldAfter(settings, halted, WithoutCycles(acts))
  {
    LossHaltFacts(settings, w, c);
    KilledCyclesAreInert(settings, RunDailyCycle(settings, w, c).0, acts);
  }

  lemma LossHaltFacts(settings: Settings, w: World, c: CycleInput)
    requires RunDailyCycle(settings, w, c).1.halted == Some(DailyLoss)
    ensures
      var (halted, s, raised) := RunDailyCycle(settings, w, c);
      halted.killed && s == NO_SUMMARY.(halted := Some(DailyLoss)) && !raised && halted.ledger == w.ledger
  {
    hide HandleAll, LossHalts;
    if !w.killed && !LossHalts(settings, w, c) {
      LoopNeverHalts(ContextOf(settings, w, c), c.slots, Start(w));
    }
  }

  lemma {:induction false} LoopNeverHalts(ctx: Context, slots: seq<Slot>, p: Progress)
    ensures HandleAll(ctx, slots, p).summary.halted == p.summary.halted
  {
    hide Decision, SubmitStep, CooldownActive;
    if slots != [] && !p.raised {
      LoopNeverHalts(ctx, slots[1..], HandleSlot(ctx, slots[0], p));
    }
  }

  // ----- the ramp-up

  function Validations(acts: seq<Act>): nat {
    if acts == [] then 0 else Validations(acts[..|acts| - 1]) + if acts[|acts| - 1].ValidateTrade? then 1 else 0
  }

  /** Only validated trades count, whatever else happens. */
  lemma {:induction false} RampupCounts(settings: Settings, w: World, acts: seq<Act>)
    ensures Rampup(WorldAfter(settings, w, acts).system) == Rampup(w.system) + Validations(acts)
  {
    hide HandleAll, LossHalts, SubmitStep, FillStep, RejectStep;
    if acts != [] {
      RampupCounts(settings, w, acts[..|acts| - 1]);
    }
  }

  predicate RampingUp(settings: Settings, s: SystemState) {
    Rampup(s) < settings.cfg.rampupRequired
  }

  ghost predicate ApprovalNeeded(requests: seq<TradeRequest>, needed: bool) {
    forall i :: 0 <= i < |requests| ==> requests[i].requiresApproval == needed
  }

  lemma SlotNeedsApproval(ctx: Context, slot: Slot, p: Progress)
    requires ApprovalNeeded(p.summary.decisions, ctx.rampup < ctx.settings.cfg.rampupRequired)
    ensures ApprovalNeeded(HandleSlot(ctx, slot, p).summary.decisions, ctx.rampup < ctx.settings.cfg.rampupRequired)
  {
    var d := Decision(ctx, slot, p.openPositions);
    assert d.Some? ==> d.value.requiresApproval == (ctx.rampup < ctx.settings.cfg.rampupRequired);
    hide Decision, Execute;
    if d.Some? {
      ExecuteKeepsDecisions(ctx, slot, p.(summary := p.summary.(decisions := p.summary.decisions + [d.value])),
                            d.value);
    }
  }

  lemma {:induction false} LoopNeedsApproval(ctx: Context, slots: seq<Slot>, p: Progress)
    requires ApprovalNeeded(p.summary.decisions, ctx.rampup < ctx.settings.cfg.rampupRequired)
    ensures ApprovalNeeded(HandleAll(ctx, slots, p).summary.decisions, ctx.rampup < ctx.settings.cfg.rampupRequired)
  {
    hide HandleSlot, ApprovalNeeded;
    if slots != [] && !p.raised {
      SlotNeedsApproval(ctx, slots[0], p);
      LoopNeedsApproval(ctx, slots[1..], HandleSlot(ctx, slots[0], p));
    }
  }

  /**
   What the ramp-up count means over a run: the decisions of a cycle need
   approval exactly while the trades validated so far, added to the count at the
   start, are fewer than required.
   */
  lemma RampupGate(settings: Settings, w: World, acts: seq<Act>, c: CycleInput)
    ensures
      var s := RunDailyCycle(settings, WorldAfter(settings, w, acts), c).1;
      ApprovalNeeded(s.decisions, Rampup(w.system) + Validations(acts) < settings.cfg.rampupRequired)
  {
    hide HandleAll, WorldAfter, DailyLossBreached;
    var now := WorldAfter(settings, w, acts);
    RampupCounts(settings, w, acts);
    LoopNeedsApproval(ContextOf(settings, now, c), c.slots, Start(now));
  }

  /** A system with nothing on record starts from none: the first decisions need approval until enough are validated. */
  lemma RampupFromNothing(settings: Settings, w: World, acts: seq<Act>, c: CycleInput)
    requires w.system.rampup.None?
    ensures
      var s := RunDailyCycle(settings, WorldAfter(settings, w, acts), c).1;
      ApprovalNeeded(s.decisions, Validations(acts) < settings.cfg.rampupRequired)
  {
    hide RunDailyCycle, WorldAfter;
    RampupGate(settings, w, acts, c);
  }

  // ----- what the guards hold back

  /** Some guard holds the cycle's orders back. */
  predicate HeldBack(settings: Settings, w: World, c: CycleInput) {
    || w.killed
    || LossHalts(settings, w, c)
    || CooldownActive(w.system.lastOrderTs, c.now, settings.cooldownMin)
    || OpenCount(w.ledger.positions) >= MAX_CONCURRENT_POSITIONS
    || RampingUp(settings, w.system)
  }

  predicate LoopHeldBack(ctx: Context, p: Progress) {
    || CooldownActive(p.lastOrderTs, ctx.now, ctx.settings.cooldownMin)
    || p.openPositions >= MAX_CONCURRENT_POSITIONS
    || ctx.rampup < ctx.settings.cfg.rampupRequired
  }

  lemma SlotHeldBack(ctx: Context, slot: Slot, p: Progress)
    requires LoopHeldBack(ctx, p)
    ensures
      var q := HandleSlot(ctx, slot, p);
      q.ledger.placed == p.ledger.placed && LoopHeldBack(ctx, q)
  {
    hide CooldownActive, SubmitStep;
    var d := Decision(ctx, slot, p.openPositions);
    if d.Some? {
      DecidedBelowCap(ctx, slot, p.openPositions);
      if d.value.requiresApproval {
        UnapprovedIsNotSent(p.ledger, d.value, slot.broker);
      }
    }
  }

  lemma DecidedBelowCap(ctx: Context, slot: Slot, openPositions: int)
    requires Decision(ctx, slot, openPositions).Some?
    ensures openPositions < MAX_CONCURRENT_POSITIONS && Decision(ctx, slot, openPositions).value.quantity >= 1
    ensures Decision(ctx, slot, openPositions).value.requiresApproval == (ctx.rampup < ctx.settings.cfg.rampupRequired)
  {
  }

  lemma UnapprovedIsNotSent(l: Ledger, request: TradeRequest, broker: BrokerReply)
    requires request.requiresApproval
    ensures SubmitStep(l, request, false, broker).0.placed == l.placed
  {
    hide HasOpenTrade;
  }

  lemma {:induction false} LoopSendsNothing(ctx: Context, slots: seq<Slot>, p: Progress)
    requires LoopHeldBack(ctx, p)
    ensures HandleAll(ctx, slots, p).ledger.placed == p.ledger.placed
  {
    hide HandleSlot, LoopHeldBack;
    if slots != [] && !p.raised {
      SlotHeldBack(ctx, slots[0], p);
      LoopSendsNothing(ctx, slots[1..], HandleSlot(ctx, slots[0], p));
    }
  }

  lemma HeldBackSendsNothing(settings: Settings, w: World, c: CycleInput)
    requires HeldBack(settings, w, c)
    ensures RunDailyCycle(settings, w, c).0.ledger.placed == w.ledger.placed
  {
    hide HandleAll, LossHalts, CooldownActive;
    if !w.killed && !LossHalts(settings, w, c) {
      LoopSendsNothing(ContextOf(settings, w, c), c.slots, Start(w));
    }
  }

  /** Every cycle of the run meets a guard that holds it back. */
  ghost predicate HeldBackRun(settings: Settings, w: World, acts: seq<Act>) {
    forall i :: 0 <= i < |acts| && acts[i].Cycle? ==>
      HeldBack(settings, WorldAfter(settings, w, acts[..i]), acts[i].input)
  }

  /** An approval that is sent where the run has got to. */
  predicate SentAt(settings: Settings, w: World, acts: seq<Act>, i: nat)
    requires i < |acts|
  {
    acts[i].Approve? && Places(WorldAfter(settings, w, acts[..i]).ledger, acts[i].request, true, acts[i].broker)
  }

  /** One act of such a run: it sends a bracket if it is an approval that can be placed, and nothing otherwise. */
  lemma ActSends(settings: Settings, w: World, a: Act)
    requires a.Cycle? ==> HeldBack(settings, w, a.input)
    ensures
      var before, after := w.ledger.placed, Apply(settings, w, a).ledger.placed;
      if a.Approve? && Places(w.ledger, a.request, true, a.broker) then |after| >= |before| + 2 else after == before
  {
    hide RunDailyCycle, HeldBack, SubmitStep, FillStep, RejectStep, Places, RequestBracket, Label;
    match a
    case Cycle(c) => HeldBackSendsNothing(settings, w, c);
    case Approve(request, broker) =>
      StepSends(w.ledger, Submit(request, true, broker));
      if Places(w.ledger, request, true, broker) {
        PlacesAccepted(w.ledger, request, true, broker);
      }
    case ReportFill(id, price, qty) => StepSends(w.ledger, Event.Fill(id, price, qty));
    case ReportReject(id, reason) => StepSends(w.ledger, Event.Reject(id, reason));
    case ValidateTrade =>
    case Activate =>
    case Deactivate =>
  }

  /**
   The guards hold back cycles, and cycles alone. While the kill switch, the
   loss limit, the cooldown, the position cap or the ramp-up stops every cycle
   of a run, nothing is sent exactly when no approval in it can be placed where
   the run has got to.
   */
  lemma {:induction false} OnlyApprovalsPassGuards(settings: Settings, w: World, acts: seq<Act>)
    requires HeldBackRun(settings, w, acts)
    ensures |WorldAfter(settings, w, acts).ledger.placed| >= |w.ledger.placed|
    ensures
      WorldAfter(settings, w, acts).ledger.placed == w.ledger.placed <==>
      forall i :: 0 <= i < |acts| ==> !SentAt(settings, w, acts, i)
  {
    hide Apply, HeldBack, Places;
    if acts != [] {
      var n := |acts| - 1;
      var front := acts[..n];
      forall i | 0 <= i < n
        ensures front[..i] == acts[..i] && front[i] == acts[i]
            && SentAt(settings, w, front, i) == SentAt(settings, w, acts, i)
      {
        assert front[..i] == acts[..i];
      }
      OnlyApprovalsPassGuards(settings, w, front);
      var before := WorldAfter(settings, w, front);
      ActSends(settings, before, acts[n]);
      assert SentAt(settings, w, acts, n) <==>
        acts[n].Approve? && Places(before.ledger, acts[n].request, true, acts[n].broker);
    }
  }

  /** In particular while the switch is on. */
  lemma KilledRunSendsIff(settings: Settings, w: World, acts: seq<Act>)
    requires w.killed && Deactivate !in acts
    ensures
      WorldAfter(settings, w, acts).ledger.placed == w.ledger.placed <==>
      forall i :: 0 <= i < |acts| ==> !SentAt(settings, w, acts, i)
  {
    hide WorldAfter, LossHalts, CooldownActive, RampingUp, SentAt;
    forall i | 0 <= i < |acts| ensures WorldAfter(settings, w, acts[..i]).killed {
      assert forall a :: a in acts[..i] ==> a in acts;
      KilledCyclesAreInert(settings, w, acts[..i]);
    }
    OnlyApprovalsPassGuards(settings, w, acts);
  }

  // ----- the ledger through whole runs

  lemma SlotIsSafe(ctx: Context, slot: Slot, p: Progress)
    requires Safe(p.ledger)
    ensures Safe(HandleSlot(ctx, slot, p).ledger) && Follows(p.ledger, HandleSlot(ctx, slot, p).ledger)
  {
    hide Decision, Safe, Follows, SubmitStep;
    var d := Decision(ctx, slot, p.openPositions);
    FollowsItself(p.ledger);
    if d.Some? {
      StepIsSafe(p.ledger, Submit(d.value, false, slot.broker));
    }
  }

  lemma {:induction false} LoopIsSafe(ctx: Context, slots: seq<Slot>, p: Progress)
    requires Safe(p.ledger)
    ensures Safe(HandleAll(ctx, slots, p).ledger) && Follows(p.ledger, HandleAll(ctx, slots, p).ledger)
  {
    hide HandleSlot, Safe, Follows;
    FollowsItself(p.ledger);
    if slots != [] && !p.raised {
      var q := HandleSlot(ctx, slots[0], p);
      SlotIsSafe(ctx, slots[0], p);
      LoopIsSafe(ctx, slots[1..], q);
      FollowsTransitive(p.ledger, q.ledger, HandleAll(ctx, slots, p).ledger);
    }
  }

  lemma ActIsSafe(settings: Settings, w: World, a: Act)
    requires Safe(w.ledger)
    ensures Safe(Apply(settings, w, a).ledger) && Follows(w.ledger, Apply(settings, w, a).ledger)
  {
    hide Safe, Follows, HandleAll, LossHalts, SubmitStep, FillStep, RejectStep;
    FollowsItself(w.ledger);
    match a
    case Cycle(c) => LoopIsSafe(ContextOf(settings, w, c), c.slots, Start(w));
    case Approve(request, broker) => StepIsSafe(w.ledger, Submit(request, true, broker));
    case ReportFill(id, price, qty) => StepIsSafe(w.ledger, Event.Fill(id, price, qty));
    case ReportReject(id, reason) => StepIsSafe(w.ledger, Event.Reject(id, reason));
    case ValidateTrade =>
    case Activate =>
    case Deactivate =>
  }

  /** Exactly-once brackets and one open position per deal hold through every run of the system. */
  lemma {:induction false} EveryRunIsSafe(settings: Settings, w: World, acts: seq<Act>)
    requires Safe(w.ledger)
    ensures Safe(WorldAfter(settings, w, acts).ledger) && Follows(w.ledger, WorldAfter(settings, w, acts).ledger)
  {
    hide Apply, Safe, Follows;
    FollowsItself(w.ledger);
    if acts != [] {
      var middle := WorldAfter(settings, w, acts[..|acts| - 1]);
      EveryRunIsSafe(settings, w, acts[..|acts| - 1]);
      ActIsSafe(settings, middle, acts[|acts| - 1]);
      FollowsTransitive(w.ledger, middle.ledger, WorldAfter(settings, w, acts).ledger);
    }
  }

  // ----- one open trade per deal through whole runs

  /** The ids drawn for a cycle are new: not in the ledger, and all different. */
  ghost predicate FreshIds(slots: seq<Slot>, trades: map<string, Trade>) {
    && (forall i :: 0 <= i < |slots| ==> slots[i].tradeId !in trades)
    && (forall i, j :: 0 <= i < j < |slots| ==> slots[i].tradeId != slots[j].tradeId)
  }

  lemma SlotKeepsOneOpenTrade(ctx: Context, slot: Slot, p: Progress)
    requires OneOpenTradePerDeal(p.ledger) && slot.tradeId !in p.ledger.trades
    ensures OneOpenTradePerDeal(HandleSlot(ctx, slot, p).ledger)
    ensures forall id :: id in HandleSlot(ctx, slot, p).ledger.trades ==> id in p.ledger.trades || id == slot.tradeId
  {
    hide EvaluateCandidate, OneOpenTradePerDeal, SubmitStep, CooldownActive;
    var d := Decision(ctx, slot, p.openPositions);
    if d.Some? {
      CarriesItsId(ctx, slot, p.openPositions);
      var call := Submit(d.value, false, slot.broker);
      DisciplinedNeverCollides(p.ledger, call);
      OneOpenTradeKeptIff(p.ledger, call);
      SubmitAddsItsRow(p.ledger, d.value, slot.broker);
    }
  }

  lemma CarriesItsId(ctx: Context, slot: Slot, openPositions: int)
    requires Decision(ctx, slot, openPositions).Some?
    ensures Decision(ctx, slot, openPositions).value.tradeId == slot.tradeId
  {
  }

  lemma SubmitAddsItsRow(l: Ledger, request: TradeRequest, broker: BrokerReply)
    ensures forall id :: id in SubmitStep(l, request, false, broker).0.trades ==>
      id in l.trades || id == request.tradeId
  {
    hide RequestBracket, Label, HasOpenTrade, Qualifies;
  }

  lemma {:induction false} LoopKeepsOneOpenTrade(ctx: Context, slots: seq<Slot>, p: Progress)
    requires OneOpenTradePerDeal(p.ledger) && FreshIds(slots, p.ledger.trades)
    ensures OneOpenTradePerDeal(HandleAll(ctx, slots, p).ledger)
  {
    hide HandleSlot, OneOpenTradePerDeal;
    if slots != [] && !p.raised {
      SlotKeepsOneOpenTrade(ctx, slots[0], p);
      LoopKeepsOneOpenTrade(ctx, slots[1..], HandleSlot(ctx, slots[0], p));
    }
  }

  /** Fresh ids in cycles, and no approval or fill that puts a second open trade on a deal. */
  ghost predicate NoClash(w: World, a: Act) {
    match a
    case Cycle(c) => FreshIds(c.slots, w.ledger.trades)
    case Approve(request, broker) => !Collides(w.ledger, Submit(request, true, broker))
    case ReportFill(id, price, qty) => !Collides(w.ledger, Event.Fill(id, price, qty))
    case _ => true
  }

  ghost predicate ClashFree(settings: Settings, w: World, acts: seq<Act>) {
    acts != [] ==>
      var front := acts[..|acts| - 1];
      ClashFree(settings, w, front) && NoClash(WorldAfter(settings, w, front), acts[|acts| - 1])
  }

  lemma ActKeepsOneOpenTrade(settings: Settings, w: World, a: Act)
    requires OneOpenTradePerDeal(w.ledger) && NoClash(w, a)
    ensures OneOpenTradePerDeal(Apply(settings, w, a).ledger)
  {
    hide HandleAll, LossHalts, SubmitStep, FillStep, RejectStep, Collides, OneOpenTradePerDeal;
    match a
    case Cycle(c) => LoopKeepsOneOpenTrade(ContextOf(settings, w, c), c.slots, Start(w));
    case Approve(request, broker) => OneOpenTradeKeptIff(w.ledger, Submit(request, true, broker));
    case ReportFill(id, price, qty) => OneOpenTradeKeptIff(w.ledger, Event.Fill(id, price, qty));
    case ReportReject(id, reason) => RejectNeverCollides(w.ledger, id, reason);
    case ValidateTrade =>
    case Activate =>
    case Deactivate =>
  }

  lemma RejectNeverCollides(l: Ledger, id: string, reason: string)
    requires OneOpenTradePerDeal(l)
    ensures OneOpenTradePerDeal(RejectStep(l, id, reason))
  {
    hide OneOpenTradePerDeal;
    OneOpenTradeKeptIff(l, Event.Reject(id, reason));
  }

  /** No deal ever has two open trades, however cycles, approvals and fills alternate. */
  lemma {:induction false} OneOpenTradeInEveryRun(settings: Settings, w: World, acts: seq<Act>)
    requires OneOpenTradePerDeal(w.ledger) && ClashFree(settings, w, acts)
    ensures OneOpenTradePerDeal(WorldAfter(settings, w, acts).ledger)
  {
    hide Apply, NoClash, OneOpenTradePerDeal;
    if acts != [] {
      OneOpenTradeInEveryRun(settings, w, acts[..|acts| - 1]);
      ActKeepsOneOpenTrade(settings, WorldAfter(settings, w, acts[..|acts| - 1]), acts[|acts| - 1]);
    }
  }

  // ----- a refused bracket

  /** The slot's decision is executed, and its bracket is refused. */
  predicate RefusedAt(ctx: Context, slot: Slot, p: Progress) {
    var d := Decision(ctx, slot, p.openPositions);
    && d.Some? && slot.brokerUp && !CooldownActive(p.lastOrderTs, ctx.now, ctx.settings.cooldownMin)
    && EffectivelyApproved(d.value, false) && Qualifies(d.value, slot.broker)
    && (if d.value.tradeId in p.ledger.trades then p.ledger.trades[d.value.tradeId].status == Pending
        else !HasOpenTrade(p.ledger.trades, d.value.dealId))
    && RequestBracket(d.value, slot.broker.baseOrderId).Err?
  }

  /** It is decided, nothing is sent, and its row is left pending and approved. */
  ghost predicate LeftBehind(p: Progress, request: TradeRequest, q: Progress) {
    && q.summary == p.summary.(decisions := p.summary.decisions + [request])
    && q.ledger.placed == p.ledger.placed && q.lastOrderTs == p.lastOrderTs
    && request.tradeId in q.ledger.trades
    && q.ledger.trades[request.tradeId].status == Pending && q.ledger.trades[request.tradeId].approved
  }

  lemma SlotRaisesIff(ctx: Context, slot: Slot, p: Progress)
    requires !p.raised
    ensures HandleSlot(ctx, slot, p).raised <==> RefusedAt(ctx, slot, p)
    ensures RefusedAt(ctx, slot, p) ==>
      LeftBehind(p, Decision(ctx, slot, p.openPositions).value, HandleSlot(ctx, slot, p))
  {
    if Decision(ctx, slot, p.openPositions).Some? {
      DecidedBelowCap(ctx, slot, p.openPositions);
    }
    hide Decision, RequestBracket, HasOpenTrade, Qualifies, CooldownActive;
  }

  /** The loop stops at slot `k`: it gets there, and the slot's bracket is refused. */
  predicate StopsAt(ctx: Context, slots: seq<Slot>, p: Progress, k: nat)
    requires k < |slots|
  {
    var before := HandleAll(ctx, slots[..k], p);
    !before.raised && RefusedAt(ctx, slots[k], before)
  }

  lemma {:induction false} HandleAllSnoc(ctx: Context, slots: seq<Slot>, last: Slot, p: Progress)
    ensures
      var before := HandleAll(ctx, slots, p);
      HandleAll(ctx, slots + [last], p) == if before.raised then before else HandleSlot(ctx, last, before)
  {
    hide HandleSlot;
    if slots == [] {
      assert slots + [last] == [last];
    } else if !p.raised {
      assert (slots + [last])[1..] == slots[1..] + [last];
      HandleAllSnoc(ctx, slots[1..], last, HandleSlot(ctx, slots[0], p));
    }
  }

  /** What follows a refused slot might as well not be there. */
  lemma {:induction false} StopIsFinal(ctx: Context, slots: seq<Slot>, p: Progress, k: nat)
    requires k < |slots| && StopsAt(ctx, slots, p, k)
    ensures HandleAll(ctx, slots, p) == HandleAll(ctx, slots[..k + 1], p)
    ensures HandleAll(ctx, slots, p) == HandleSlot(ctx, slots[k], HandleAll(ctx, slots[..k], p))
    ensures HandleAll(ctx, slots, p).raised
  {
    hide HandleSlot, HandleAll, RefusedAt;
    var front := slots[..|slots| - 1];
    assert slots == front + [slots[|slots| - 1]];
    HandleAllSnoc(ctx, front, slots[|slots| - 1], p);
    if k == |slots| - 1 {
      SlotRaisesIff(ctx, slots[k], HandleAll(ctx, slots[..k], p));
      assert slots[..k + 1] == slots;
    } else {
      assert front[..k] == slots[..k] && front[..k + 1] == slots[..k + 1];
      StopIsFinal(ctx, front, p, k);
    }
  }

  lemma {:induction false} LoopRaisesIff(ctx: Context, slots: seq<Slot>, p: Progress)
    requires !p.raised
    ensures HandleAll(ctx, slots, p).raised <==> exists k :: 0 <= k < |slots| && StopsAt(ctx, slots, p, k)
  {
    hide HandleSlot, RefusedAt;
    if slots != [] {
      hide HandleAll;
      var n := |slots| - 1;
      var front := slots[..n];
      assert slots == front + [slots[n]];
      LoopRaisesIff(ctx, front, p);
      HandleAllSnoc(ctx, front, slots[n], p);
      if HandleAll(ctx, front, p).raised {
        var k :| 0 <= k < |front| && StopsAt(ctx, front, p, k);
        assert front[..k] == slots[..k];
        assert StopsAt(ctx, slots, p, k);
      } else {
        SlotRaisesIff(ctx, slots[n], HandleAll(ctx, front, p));
        assert StopsAt(ctx, slots, p, n) <==> RefusedAt(ctx, slots[n], HandleAll(ctx, front, p));
        forall k | 0 <= k < n ensures !StopsAt(ctx, slots, p, k) {
          assert front[..k] == slots[..k];
          assert !StopsAt(ctx, front, p, k);
        }
      }
    }
  }

  /**
   A cycle raises exactly when it is not halted and reaches a candidate that is
   decided and executed and whose bracket is refused.
   */
  lemma CycleRaisesIff(settings: Settings, w: World, c: CycleInput)
    ensures
      RunDailyCycle(settings, w, c).2 <==>
      && !w.killed && !LossHalts(settings, w, c)
      && exists k :: 0 <= k < |c.slots| && StopsAt(ContextOf(settings, w, c), c.slots, Start(w), k)
  {
    hide HandleAll, LossHalts, StopsAt;
    LoopRaisesIff(ContextOf(settings, w, c), c.slots, Start(w));
  }

  /**
   It ends there: the candidates after that one change nothing, its decision is
   the last, and its row stays behind pending and approved, with nothing sent.
   */
  lemma RefusalEndsCycle(settings: Settings, w: World, c: CycleInput, k: nat)
    requires k < |c.slots| && !w.killed && !LossHalts(settings, w, c)
    requires StopsAt(ContextOf(settings, w, c), c.slots, Start(w), k)
    ensures RunDailyCycle(settings, w, c) == RunDailyCycle(settings, w, c.(slots := c.slots[..k + 1]))
    ensures
      var ctx := ContextOf(settings, w, c);
      var before := HandleAll(ctx, c.slots[..k], Start(w));
      var (w', s, raised) := RunDailyCycle(settings, w, c);
      && raised
      && LeftBehind(before, Decision(ctx, c.slots[k], before.openPositions).value,
                    Progress(w'.ledger, w'.system.lastOrderTs, before.openPositions, s, true))
  {
    hide HandleAll, HandleSlot, RefusedAt, Decision, DailyLossBreached;
    var ctx := ContextOf(settings, w, c);
    StopIsFinal(ctx, c.slots, Start(w), k);
    SlotRaisesIff(ctx, c.slots[k], HandleAll(ctx, c.slots[..k], Start(w)));
    assert ContextOf(settings, w, c.(slots := c.slots[..k + 1])) == ctx;
  }

  /** The shipped price settings, and no reference price below 1.13, or 1.69 in Italy. */
  predicate ShippedAndPriced(settings: Settings, slots: seq<Slot>) {
    && settings.cfg == DEFAULT_CONFIG
    && forall i :: 0 <= i < |slots| && slots[i].snapshot.Some? ==>
         var reference := ReferencePrice(slots[i].snapshot.value, slots[i].candidate.juridiction);
         reference.Some? ==> reference.value >= if slots[i].candidate.juridiction == "IT" then 1.69 else 1.13
  }

  lemma AcceptedAtSlot(ctx: Context, slot: Slot, p: Progress)
    requires ShippedAndPriced(ctx.settings, [slot])
    ensures !RefusedAt(ctx, slot, p)
  {
    hide EvaluateCandidate, ReferencePrice, RequestBracket, CooldownActive, HasOpenTrade, Qualifies;
    var d := Decision(ctx, slot, p.openPositions);
    if d.Some? {
      assert [slot][0] == slot;
      var snapshot := slot.snapshot.value;
      HasReference(slot.candidate, snapshot, ctx.netLiquidation, p.openPositions, ctx.rampup, ctx.settings.cfg,
                   slot.tradeId);
      DefaultConfigAccepted(slot.candidate, snapshot, ctx.netLiquidation, p.openPositions, ctx.rampup, slot.tradeId,
                            d.value, slot.broker.baseOrderId);
    }
  }

  lemma HasReference(candidate: DealCandidate, snapshot: PriceSnapshot, nlv: real, open: int, rampup: int,
                     cfg: TradingConfig, tradeId: string)
    requires EvaluateCandidate(candidate, snapshot, nlv, open, rampup, cfg, tradeId).Some?
    ensures ReferencePrice(snapshot, candidate.juridiction).Some?
  {
    hide Size, ComputeSpread, EntryLimitPrice, StopPrice, ReferencePrice;
  }

  /** A condition to check before the cycle: with the shipped settings and such prices no cycle raises. */
  lemma PricedCycleNeverRaises(settings: Settings, w: World, c: CycleInput)
    requires ShippedAndPriced(settings, c.slots)
    ensures !RunDailyCycle(settings, w, c).2
  {
    hide RunDailyCycle, HandleAll, RefusedAt, ReferencePrice;
    CycleRaisesIff(settings, w, c);
    var ctx := ContextOf(settings, w, c);
    forall k | 0 <= k < |c.slots| ensures !StopsAt(ctx, c.slots, Start(w), k) {
      assert [c.slots[k]][0] == c.slots[k];
      AcceptedAtSlot(ctx, c.slots[k], HandleAll(ctx, c.slots[..k], Start(w)));
    }
  }
}
