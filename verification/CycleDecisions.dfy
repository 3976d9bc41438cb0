/**
 What a daily cycle decides and what becomes of each decision, told from its
 inputs alone: the candidates, that cycle's own NetLiquidation, and what was on
 record when it began (src/trading/scheduler.py:131-233).
 */
module CycleDecisions {
  import opened Common
  import opened Products
  import opened PositionSizing
  import opened DecisionEngine
  import opened PositionBook
  import opened TradeLedger
  import opened Safeguards
  import opened TradingCycle
  import opened TradingRuns

  // ----- candidate by candidate

  /** The request for a candidate with a price, at the cycle's NetLiquidation. */
  function Asked(settings: Settings, w: World, c: CycleInput, slot: Slot, openPositions: int): Option<TradeRequest> {
    if slot.snapshot.None? then None
    else
      EvaluateCandidate(slot.candidate, slot.snapshot.value, c.netLiquidation, openPositions, Rampup(w.system),
                        settings.cfg, slot.tradeId)
  }

  /** The same cycle over its first candidates only. */
  function Upto(c: CycleInput, k: nat): CycleInput
    requires k <= |c.slots|
  {
    c.(slots := c.slots[..k])
  }

  predicate CoolingDown(settings: Settings, lastOrderTs: Option<int>, now: int) {
    lastOrderTs.Some? && now < lastOrderTs.value + settings.cooldownMin * 60_000_000
  }

  lemma PrefixSnoc(settings: Settings, w: World, c: CycleInput, k: nat)
    requires k < |c.slots| && !w.killed && !LossHalts(settings, w, c)
    ensures
      var ctx := ContextOf(settings, w, c);
      var before := HandleAll(ctx, c.slots[..k], Start(w));
      && RunDailyCycle(settings, w, Upto(c, k)) ==
         (World(before.ledger,
                WithDailyBaseline(w.system, c.netLiquidation, c.today).0.(lastOrderTs := before.lastOrderTs), false),
          before.summary, before.raised)
      && HandleAll(ctx, c.slots[..k + 1], Start(w)) ==
         if before.raised then before else HandleSlot(ctx, c.slots[k], before)
  {
    hide HandleAll, HandleSlot, LossHalts;
    var ctx := ContextOf(settings, w, c);
    assert ContextOf(settings, w, Upto(c, k)) == ctx;
    SameHalt(settings, w, c, Upto(c, k));
    assert c.slots[..k + 1] == c.slots[..k] + [c.slots[k]];
    HandleAllSnoc(ctx, c.slots[..k], c.slots[k], Start(w));
  }

  lemma SameHalt(settings: Settings, w: World, c: CycleInput, c': CycleInput)
    requires c'.netLiquidation == c.netLiquidation && c'.today == c.today
    ensures LossHalts(settings, w, c) == LossHalts(settings, w, c')
  {
  }

  /** What a turn of the loop does to the summary, the order clock and the ledger, from the guards. */
  ghost predicate TurnIs(settings: Settings, c: CycleInput, slot: Slot, asked: Option<TradeRequest>,
                         w: World, s: Summary, w': World, s': Summary, raised': bool)
  {
    if asked.None? then
      w' == w && s' == s.(skipped := s.skipped + 1) && !raised'
    else
      var request, decided := asked.value, s.(decisions := s.decisions + [asked.value]);
      if !slot.brokerUp || CoolingDown(settings, w.system.lastOrderTs, c.now) then
        w' == w && s' == decided.(executionSkipped := s.executionSkipped + 1) && !raised'
      else
        var (ledger, outcome) := SubmitStep(w.ledger, request, false, slot.broker);
        match outcome
        case DuplicateSkipped =>
          w' == w.(ledger := ledger) && s' == decided.(executionSkipped := s.executionSkipped + 1) && !raised'
        case RowRefused => w' == w.(ledger := ledger) && s' == decided && raised'
        case BracketRefused(_) => w' == w.(ledger := ledger) && s' == decided && raised'
        case Recorded(trade) =>
          !raised' &&
          if trade.status == Submitted then
            && w' == w.(ledger := ledger, system := w.system.(lastOrderTs := Some(c.now)))
            && s' == decided.(submitted := s.submitted + [request.tradeId])
          else
            && w' == w.(ledger := ledger)
            && s' == if trade.status == Pending && request.requiresApproval
                     then decided.(pendingApproval := s.pendingApproval + [request.tradeId])
                     else decided.(skipped := s.skipped + 1)
  }

  /**
   A cycle takes its candidates in order. Each is evaluated at this cycle's own
   NetLiquidation, with the positions open at its start plus the orders it has
   submitted so far; whatever it decides is kept, and only then do broker,
   cooldown and executor say what becomes of it.
   */
  lemma CycleTurn(settings: Settings, w: World, c: CycleInput, k: nat)
    requires k < |c.slots| && RunDailyCycle(settings, w, c).1.halted.None?
    ensures
      var (before, s, raised) := RunDailyCycle(settings, w, Upto(c, k));
      var (after, s', raised') := RunDailyCycle(settings, w, Upto(c, k + 1));
      var asked := Asked(settings, w, c, c.slots[k], OpenCount(w.ledger.positions) + |s.submitted|);
      if raised then after == before && s' == s && raised'
      else TurnIs(settings, c, c.slots[k], asked, before, s, after, s', raised')
  {
    hide LossHalts, HandleAll, HandleSlot, TurnIs;
    NotHaltedMeans(settings, w, c);
    PrefixSnoc(settings, w, c, k);
    assert Upto(c, k + 1).slots == c.slots[..k + 1];
    SameHalt(settings, w, c, Upto(c, k + 1));
    var ctx := ContextOf(settings, w, c);
    assert ContextOf(settings, w, Upto(c, k + 1)) == ctx;
    var before := HandleAll(ctx, c.slots[..k], Start(w));
    OpenCountGrowsBySubmissions(ctx, c.slots[..k], Start(w));
    if !before.raised {
      SlotTurn(settings, w, c, c.slots[k], before, WithDailyBaseline(w.system, c.netLiquidation, c.today).0);
    }
  }

  lemma NotHaltedMeans(settings: Settings, w: World, c: CycleInput)
    requires RunDailyCycle(settings, w, c).1.halted.None?
    ensures !w.killed && !LossHalts(settings, w, c)
  {
    hide HandleAll, LossHalts;
  }

  lemma SlotTurn(settings: Settings, w: World, c: CycleInput, slot: Slot, p: Progress, system: SystemState)
    requires !p.raised
    ensures
      var q := HandleSlot(ContextOf(settings, w, c), slot, p);
      TurnIs(settings, c, slot, Asked(settings, w, c, slot, p.openPositions),
             World(p.ledger, system.(lastOrderTs := p.lastOrderTs), false), p.summary,
             World(q.ledger, system.(lastOrderTs := q.lastOrderTs), false), q.summary, q.raised)
  {
    hide EvaluateCandidate, SubmitStep;
  }

  // ----- all decisions of a cycle

  /** The decisions on a list of candidates while the number of open positions does not move. */
  function AskedInTurn(settings: Settings, w: World, c: CycleInput, k: nat): seq<TradeRequest>
    requires k <= |c.slots|
  {
    if k == 0 then []
    else
      var asked := Asked(settings, w, c, c.slots[k - 1], OpenCount(w.ledger.positions));
      AskedInTurn(settings, w, c, k - 1) + if asked.Some? then [asked.value] else []
  }

  lemma {:induction false} PrefixWithoutBroker(settings: Settings, w: World, c: CycleInput, k: nat)
    requires k <= |c.slots| && RunDailyCycle(settings, w, c).1.halted.None?
    requires forall i :: 0 <= i < |c.slots| ==> !c.slots[i].brokerUp
    ensures
      var (_, s, raised) := RunDailyCycle(settings, w, Upto(c, k));
      !raised && s.submitted == [] && s.decisions == AskedInTurn(settings, w, c, k)
  {
    if k == 0 {
      CycleBegins(settings, w, c);
    } else {
      hide RunDailyCycle, Asked;
      PrefixWithoutBroker(settings, w, c, k - 1);
      CycleTurn(settings, w, c, k - 1);
    }
  }

  /** Before its first candidate a cycle that is not halted has only set the day's baseline. */
  lemma CycleBegins(settings: Settings, w: World, c: CycleInput)
    requires RunDailyCycle(settings, w, c).1.halted.None?
    ensures
      var (begun, s, raised) := RunDailyCycle(settings, w, Upto(c, 0));
      && s == Summary(None, [], [], [], 0, 0) && !raised && begun.ledger == w.ledger && !begun.killed
      && begun.system == w.system.(baseline := begun.system.baseline, baselineDate := begun.system.baselineDate)
      && begun.system.baselineDate == Some(c.today)
      && (w.system.baselineDate != Some(c.today) ==> begun.system.baseline == Some(c.netLiquidation))
      && (w.system.baselineDate == Some(c.today) ==> begun.system.baseline == w.system.baseline)
  {
    hide LossHalts;
    NotHaltedMeans(settings, w, c);
    SameHalt(settings, w, c, Upto(c, 0));
  }

  /**
   Without a broker the decisions of a cycle are those on its candidates, in
   order, at its own NetLiquidation and with the positions open at its start.
   */
  lemma DecisionsWithoutBroker(settings: Settings, w: World, c: CycleInput)
    requires RunDailyCycle(settings, w, c).1.halted.None?
    requires forall i :: 0 <= i < |c.slots| ==> !c.slots[i].brokerUp
    ensures RunDailyCycle(settings, w, c).1.decisions == AskedInTurn(settings, w, c, |c.slots|)
  {
    hide RunDailyCycle, AskedInTurn;
    PrefixWithoutBroker(settings, w, c, |c.slots|);
    assert Upto(c, |c.slots|) == c by { assert c.slots[..|c.slots|] == c.slots; }
  }

  /** A request within 12% of the capital at the unrounded limit of some candidate of the cycle, taken over from it. */
  ghost predicate SizedWithin(settings: Settings, w: World, c: CycleInput, request: TradeRequest) {
    exists k, open ::
      && 0 <= k < |c.slots| && OpenCount(w.ledger.positions) <= open < 5
      && Asked(settings, w, c, c.slots[k], open) == Some(request) && WithinTwelve(settings, c, c.slots[k], request)
  }

  ghost predicate WithinTwelve(settings: Settings, c: CycleInput, slot: Slot, request: TradeRequest) {
    exists reference, limit, cap ::
      && slot.snapshot.Some? && IsReference(slot.snapshot.value, slot.candidate.juridiction, reference)
      && IsLimit(settings.cfg, slot.candidate.juridiction, reference, limit) && IsClamped(c.netLiquidation, cap)
      && request.quantity as real * limit <= 0.12 * cap
  }

  lemma AskedWithinTwelve(settings: Settings, w: World, c: CycleInput, slot: Slot, open: int)
    requires Asked(settings, w, c, slot, open).Some?
    ensures open < 5 && WithinTwelve(settings, c, slot, Asked(settings, w, c, slot, open).value)
  {
    hide EvaluateCandidate, IsReference, IsLimit, IsClamped;
    var reference, limit, cap := DecidedWithinTwelve(
      slot.candidate, slot.snapshot.value, c.netLiquidation, open, Rampup(w.system), settings.cfg, slot.tradeId,
      Asked(settings, w, c, slot, open).value);
  }

  lemma BelowTheCap(candidate: DealCandidate, snapshot: PriceSnapshot, nlv: real, open: int, rampup: int,
                    cfg: TradingConfig, tradeId: string)
    requires EvaluateCandidate(candidate, snapshot, nlv, open, rampup, cfg, tradeId).Some?
    ensures open < 5
  {
    hide EvaluateCandidate;
    OnlyTheCapMatters(candidate, snapshot, nlv, open, open, rampup, cfg, tradeId);
  }

  lemma DecidedWithinTwelve(candidate: DealCandidate, snapshot: PriceSnapshot, nlv: real, open: int, rampup: int,
                            cfg: TradingConfig, tradeId: string, request: TradeRequest)
    returns (reference: real, limit: real, cap: real)
    requires EvaluateCandidate(candidate, snapshot, nlv, open, rampup, cfg, tradeId) == Some(request)
    ensures IsReference(snapshot, candidate.juridiction, reference)
        && IsLimit(cfg, candidate.juridiction, reference, limit)
    ensures open < 5 && IsClamped(nlv, cap) && request.quantity as real * limit <= 0.12 * cap
  {
    hide *;
    BelowTheCap(candidate, snapshot, nlv, open, rampup, cfg, tradeId);
    QuantityIsShares(candidate, snapshot, nlv, open, rampup, cfg, tradeId, request);
    reference, limit, cap := ReferencePrice(snapshot, candidate.juridiction).value, SizedAt(candidate, snapshot, cfg),
        EffectiveCapital(nlv);
    ReferenceIs(snapshot, candidate.juridiction, reference);
    SizedAtIsLimit(candidate, snapshot, cfg);
    CapIsTwelve(cap);
  }

  lemma CapIsTwelve(cap: real)
    ensures MAX_POSITION_PCT * cap == 0.12 * cap
  {
  }

  lemma SizedAtIsLimit(candidate: DealCandidate, snapshot: PriceSnapshot, cfg: TradingConfig)
    requires ReferencePrice(snapshot, candidate.juridiction).Some?
    ensures IsLimit(cfg, candidate.juridiction, ReferencePrice(snapshot, candidate.juridiction).value,
                    SizedAt(candidate, snapshot, cfg))
  {
    hide ReferencePrice;
  }

  lemma TurnDecides(settings: Settings, c: CycleInput, slot: Slot, asked: Option<TradeRequest>,
                    w: World, s: Summary, w': World, s': Summary, raised': bool)
    requires TurnIs(settings, c, slot, asked, w, s, w', s', raised')
    ensures s'.decisions == s.decisions + if asked.Some? then [asked.value] else []
  {
    hide SubmitStep, CoolingDown;
  }

  lemma {:induction false} PrefixSizedWithin(settings: Settings, w: World, c: CycleInput, k: nat)
    requires k <= |c.slots| && RunDailyCycle(settings, w, c).1.halted.None?
    ensures
      var s := RunDailyCycle(settings, w, Upto(c, k)).1;
      forall i :: 0 <= i < |s.decisions| ==> SizedWithin(settings, w, c, s.decisions[i])
  {
    if k == 0 {
      CycleBegins(settings, w, c);
    } else {
      hide RunDailyCycle, Asked, WithinTwelve, OpenCount, TurnIs;
      PrefixSizedWithin(settings, w, c, k - 1);
      CycleTurn(settings, w, c, k - 1);
      var open := OpenCount(w.ledger.positions) + |RunDailyCycle(settings, w, Upto(c, k - 1)).1.submitted|;
      var asked := Asked(settings, w, c, c.slots[k - 1], open);
      var (before, s, raised) := RunDailyCycle(settings, w, Upto(c, k - 1));
      var (after, s', raised') := RunDailyCycle(settings, w, Upto(c, k));
      if !raised {
        TurnDecides(settings, c, c.slots[k - 1], asked, before, s, after, s', raised');
      }
      if asked.Some? {
        AskedWithinTwelve(settings, w, c, c.slots[k - 1], open);
        assert SizedWithin(settings, w, c, asked.value);
      }
      hide SizedWithin;
    }
  }

  /**
   Over every run, each decision of a cycle comes from one of its candidates and
   stays, at that candidate's unrounded limit, within 12% of that cycle's own
   NetLiquidation held in its band.
   */
  lemma DecisionsWithinTwelve(settings: Settings, w: World, acts: seq<Act>, c: CycleInput)
    ensures
      var before := WorldAfter(settings, w, acts);
      var s := RunDailyCycle(settings, before, c).1;
      forall i :: 0 <= i < |s.decisions| ==> SizedWithin(settings, before, c, s.decisions[i])
  {
    hide WorldAfter, SizedWithin;
    var before := WorldAfter(settings, w, acts);
    if RunDailyCycle(settings, before, c).1.halted.None? {
      PrefixSizedWithin(settings, before, c, |c.slots|);
      assert Upto(c, |c.slots|) == c by { assert c.slots[..|c.slots|] == c.slots; }
    } else {
      HaltedDecidesNothing(settings, before, c);
    }
  }

  lemma HaltedDecidesNothing(settings: Settings, w: World, c: CycleInput)
    requires RunDailyCycle(settings, w, c).1.halted.Some?
    ensures RunDailyCycle(settings, w, c).1.decisions == []
  {
    hide HandleAll, LossHalts;
    LoopNeverHalts(ContextOf(settings, w, c), c.slots, Start(w));
  }

  // ----- when a cycle halts

  /**
   Why a cycle halts, over runs whose dates do not go back: the switch is on, or
   NetLiquidation is at or under the limit below the day's baseline. A day on
   record without a figure is measured against the reading itself.
   */
  lemma HaltsExactly(settings: Settings, w: World, acts: seq<Act>, c: CycleInput)
    requires DatesRise(w, acts + [Cycle(c)])
    ensures
      var before := WorldAfter(settings, w, acts);
      var halted, known := RunDailyCycle(settings, before, c).1.halted,
          BaselineOn(settings, w, acts + [Cycle(c)], c.today);
      var baseline := if known.Some? then known.value else c.netLiquidation;
      && (halted == Some(KillSwitchActive) <==> before.killed)
      && (halted == Some(DailyLoss) <==>
          !before.killed && baseline > 0.0 && c.netLiquidation <= Times(1.0 - settings.lossLimitPct, baseline))
  {
    hide WorldAfter, DatesRise, BaselineOn, Times, DailyLossBreached;
    var before := WorldAfter(settings, w, acts);
    HaltIs(settings, before, c);
    if !before.killed {
      BaselineOrReading(settings, w, acts, c);
      DailyLossBreachedIff(c.netLiquidation, DayBaseline(before, c), settings.lossLimitPct);
    }
  }

  lemma HaltIs(settings: Settings, w: World, c: CycleInput)
    ensures
      RunDailyCycle(settings, w, c).1.halted ==
      if w.killed then Some(KillSwitchActive)
      else if DailyLossBreached(c.netLiquidation, DayBaseline(w, c), settings.lossLimitPct)
      then Some(DailyLoss) else None
  {
    hide HandleAll, DailyLossBreached;
    LoopNeverHalts(ContextOf(settings, w, c), c.slots, Start(w));
  }

  lemma BaselineOrReading(settings: Settings, w: World, acts: seq<Act>, c: CycleInput)
    requires DatesRise(w, acts + [Cycle(c)]) && !WorldAfter(settings, w, acts).killed
    ensures
      var known := BaselineOn(settings, w, acts + [Cycle(c)], c.today);
      DayBaseline(WorldAfter(settings, w, acts), c) == if known.Some? then known.value else c.netLiquidation
  {
    hide DatesRise, WorldAfter, FirstOfDay;
    var all := acts + [Cycle(c)];
    assert all[..|all| - 1] == acts && all[|acts|] == Cycle(c);
    DatesBefore(w, acts, c);
    BaselineFollowed(settings, w, acts, c.today);
    FirstOfDayStep(settings, w, all);
  }
}
