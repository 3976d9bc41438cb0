/**
 The scheduler around its collaborators (src/trading/scheduler.py): the daily
 cycle and the handling of one trade as they rewrite the executor's ledger, the
 system_state rows and the kill switch, proved against TradingCycle.
 */
module Scheduler {
  import opened Common
  import opened DecisionEngine
  import opened PositionBook
  import opened TradeLedger
  import opened Executor
  import opened Safeguards
  import opened TradingCycle

  class TradingScheduler {
    const settings: Settings
    const executor: TradeExecutor
    const store: SystemStateStore
    const killSwitch: KillSwitch

    constructor (settings: Settings, executor: TradeExecutor, store: SystemStateStore, killSwitch: KillSwitch)
      ensures this.settings == settings && this.executor == executor && this.store == store
          && this.killSwitch == killSwitch
    {
      this.settings, this.executor, this.store, this.killSwitch := settings, executor, store, killSwitch;
    }

    function State(): World
      reads this, executor, store, killSwitch
    {
      World(executor.State(), store.rows, killSwitch.IsActive())
    }

    method RunDailyCycle(c: CycleInput) returns (summary: Summary, raised: bool)
      requires executor.Valid()
      modifies executor, store, killSwitch
      ensures executor.Valid()
      ensures (State(), summary, raised) == TradingCycle.RunDailyCycle(settings, old(State()), c)
      ensures Follows(old(executor.State()), executor.State())
    {
      hide HandleSlot, Follows, Safe, DailyLossBreached;
      FollowsItself(executor.State());
      summary, raised := NO_SUMMARY, false;
      if killSwitch.IsActive() {
        summary := summary.(halted := Some(KillSwitchActive));
        return;
      }
      var baseline := store.EnsureDailyBaseline(c.netLiquidation, c.today);
      if DailyLossBreached(c.netLiquidation, baseline, settings.lossLimitPct) {
        killSwitch.Activate("daily_loss_limit");
        summary := summary.(halted := Some(DailyLoss));
        return;
      }
      var ctx := Context(settings, c.netLiquidation, Rampup(store.rows), c.now);
      var openPositions := OpenCount(executor.positions);
      ghost var begin := Progress(executor.State(), store.rows.lastOrderTs, openPositions, summary, raised);
      ghost var rows := store.rows;
      var i := 0;
      while i < |c.slots| && !raised
        invariant 0 <= i <= |c.slots|
        invariant executor.Valid() && Follows(old(executor.State()), executor.State())
        invariant store.rows == rows.(lastOrderTs := store.rows.lastOrderTs)
        invariant killSwitch.flag == old(killSwitch.flag)
        invariant
          var now := Progress(executor.State(), store.rows.lastOrderTs, openPositions, summary, raised);
          HandleAll(ctx, c.slots[i..], now) == HandleAll(ctx, c.slots, begin)
      {
        assert c.slots[i..][0] == c.slots[i] && c.slots[i..][1..] == c.slots[i + 1..];
        openPositions, summary, raised := HandleCandidate(ctx, c.slots[i], openPositions, summary);
        i := i + 1;
      }
    }

    /** One turn of the loop over the candidates. */
    method HandleCandidate(ctx: Context, slot: Slot, openPositions: int, summary: Summary)
      returns (openPositions': int, summary': Summary, raised: bool)
      requires executor.Valid()
      modifies executor, store
      ensures executor.Valid()
      ensures
        var before := Progress(old(executor.State()), old(store.rows.lastOrderTs), openPositions, summary, false);
        Progress(executor.State(), store.rows.lastOrderTs, openPositions', summary', raised) ==
        HandleSlot(ctx, slot, before)
      ensures store.rows == old(store.rows).(lastOrderTs := store.rows.lastOrderTs)
      ensures forall l: Ledger :: Follows(l, old(executor.State())) ==> Follows(l, executor.State())
    {
      hide EvaluateCandidate, SubmitStep, Safe, Follows, CooldownActive;
      openPositions', summary', raised := openPositions, summary, false;
      var decision := Decision(ctx, slot, openPositions);
      if decision.None? {
        summary' := Skip(summary');
        return;
      }
      var request := decision.value;
      summary' := summary'.(decisions := summary'.decisions + [request]);
      if !slot.brokerUp {
        summary' := SkipExecution(summary');
        return;
      }
      if CooldownActive(store.rows.lastOrderTs, ctx.now, ctx.settings.cooldownMin) {
        summary' := SkipExecution(summary');
        return;
      }
      var outcome := executor.Submit(request, false, slot.broker);
      forall l: Ledger | Follows(l, old(executor.State())) ensures Follows(l, executor.State()) {
        FollowsTransitive(l, old(executor.State()), executor.State());
      }
      match outcome
      case DuplicateSkipped => summary' := SkipExecution(summary');
      case RowRefused => raised := true;
      case BracketRefused(_) => raised := true;
      case Recorded(trade) =>
        if trade.status == Pending && request.requiresApproval {
          summary' := summary'.(pendingApproval := summary'.pendingApproval + [request.tradeId]);
        } else if trade.status == Submitted {
          openPositions' := openPositions' + 1;
          store.SetLastOrderNow(ctx.now);
          summary' := summary'.(submitted := summary'.submitted + [request.tradeId]);
        } else {
          summary' := Skip(summary');
        }
    }
  }
}
