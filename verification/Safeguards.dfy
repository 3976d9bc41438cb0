/**
 The kill switch, the daily loss limit, the order cooldown and the persistent
 counters behind them (src/trading/safeguards.py). Instants are whole
 microseconds, days are day numbers.
 */
module Safeguards {
  import opened Common
  import opened Products

  const MICROSECONDS_PER_MINUTE := 60_000_000

  function DailyLossBreached(netLiquidationNow: real, baseline: real, limitPct: real): bool {
    baseline > 0.0 && (baseline - netLiquidationNow) / baseline >= limitPct
  }

  /** Breached exactly when NetLiquidation is at or under the limit below a positive baseline. */
  lemma DailyLossBreachedIff(nlv: real, baseline: real, limitPct: real)
    ensures DailyLossBreached(nlv, baseline, limitPct) <==> baseline > 0.0 && nlv <= Times(1.0 - limitPct, baseline)
  {
    if baseline > 0.0 {
      hide Times;
      var drawdown := (baseline - nlv) / baseline;
      TimesQuotient(baseline - nlv, baseline);
      TimesAdd(1.0, -limitPct, baseline);
      TimesNegate(limitPct, baseline);
      TimesOne(baseline);
      if drawdown >= limitPct {
        TimesScale(limitPct, drawdown, baseline);
      } else {
        TimesBelow(drawdown, limitPct, baseline);
      }
    }
  }

  predicate CooldownActive(lastOrderTs: Option<int>, now: int, cooldownMin: int) {
    lastOrderTs.Some? && now - lastOrderTs.value < cooldownMin * MICROSECONDS_PER_MINUTE
  }

  /** The rows of the system_state table; a missing row is None. */
  datatype SystemState = SystemState(rampup: Option<int>, baseline: Option<real>, baselineDate: Option<int>,
                                     lastOrderTs: Option<int>)

  function Rampup(s: SystemState): int {
    if s.rampup.Some? then s.rampup.value else 0
  }

  /** One more trade validated. */
  function WithValidation(s: SystemState): SystemState {
    s.(rampup := Some(Rampup(s) + 1))
  }

  /** Sets and returns the day's baseline: a new day starts from today's NetLiquidation. */
  function WithDailyBaseline(s: SystemState, netLiquidation: real, today: int): (SystemState, real) {
    if s.baselineDate != Some(today)
    then (s.(baseline := Some(netLiquidation), baselineDate := Some(today)), netLiquidation)
    else (s, if s.baseline.Some? then s.baseline.value else netLiquidation)
  }

  /** Presence of the flag file is the switch. */
  class KillSwitch {
    var flag: Option<string>

    constructor ()
      ensures !IsActive()
    {
      flag := None;
    }

    predicate IsActive()
      reads this
    {
      flag.Some?
    }

    method Activate(reason: string)
      modifies this
      ensures IsActive() && flag == Some(reason)
    {
      flag := Some(reason);
    }

    method Deactivate()
      modifies this
      ensures !IsActive()
    {
      flag := None;
    }
  }

  class SystemStateStore {
    var rows: SystemState

    constructor ()
      ensures rows == SystemState(None, None, None, None)
    {
      rows := SystemState(None, None, None, None);
    }

    method IncrementRampup() returns (n: int)
      modifies this
      ensures rows == WithValidation(old(rows)) && n == Rampup(rows)
    {
      n := Rampup(rows) + 1;
      rows := rows.(rampup := Some(n));
    }

    method EnsureDailyBaseline(netLiquidation: real, today: int) returns (baseline: real)
      modifies this
      ensures (rows, baseline) == WithDailyBaseline(old(rows), netLiquidation, today)
      ensures rows.baselineDate == Some(today)
    {
      if rows.baselineDate != Some(today) {
        rows := rows.(baseline := Some(netLiquidation));
        rows := rows.(baselineDate := Some(today));
        return netLiquidation;
      }
      return if rows.baseline.Some? then rows.baseline.value else netLiquidation;
    }

    method SetLastOrderNow(now: int)
      modifies this
      ensures rows == old(rows).(lastOrderTs := Some(now))
    {
      rows := rows.(lastOrderTs := Some(now));
    }
  }
}
