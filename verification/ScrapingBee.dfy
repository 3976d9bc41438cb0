/**
 The monthly credit budget around ScrapingBee calls
 (src/core/scrapingbee_client.py). A call checks the month's spending, fetches,
 and only then learns and records its cost, so callers in flight overlap.
 */
module ScrapingBee {
  import opened Common

  const VENDOR := "scrapingbee"
  const HTTP_CLIENT_ERROR_THRESHOLD := 400

  datatype UsageRow = UsageRow(vendor: string, yearMonth: int, creditsCost: int)

  function CostIn(row: UsageRow, month: int): int {
    if row.vendor == VENDOR && row.yearMonth == month then row.creditsCost else 0
  }

  function UsedCredits(rows: seq<UsageRow>, month: int): int {
    if rows == [] then 0 else UsedCredits(rows[..|rows| - 1], month) + CostIn(rows[|rows| - 1], month)
  }

  lemma UsedAfter(rows: seq<UsageRow>, row: UsageRow, month: int)
    ensures UsedCredits(rows + [row], month) == UsedCredits(rows, month) + CostIn(row, month)
  {
    assert (rows + [row])[..|rows|] == rows;
  }

  lemma UsedNothing(rows: seq<UsageRow>, month: int)
    ensures UsedCredits(rows[..0], month) == 0
  {
  }

  datatype Config = Config(budget: int, thresholds: seq<int>, hasHook: bool)

  /** Integer percentage of the budget, rounded down. */
  function Percent(used: int, budget: int): int
    requires budget > 0
  {
    used * 100 / budget
  }

  /** The thresholds in (before, after], in the order they are configured. */
  function Crossed(thresholds: seq<int>, before: int, after: int): seq<int> {
    if thresholds == [] then []
    else (if before < thresholds[0] <= after then [thresholds[0]] else []) + Crossed(thresholds[1..], before, after)
  }

  function Alerts(cfg: Config, usedBefore: int, usedAfter: int): seq<int> {
    if !cfg.hasHook || cfg.budget <= 0 then []
    else Crossed(cfg.thresholds, Percent(usedBefore, cfg.budget), Percent(usedAfter, cfg.budget))
  }

  /** `inFlight` maps a caller past the check to the spending it saw there. */
  datatype State = State(rows: seq<UsageRow>, inFlight: map<nat, int>, month: int, alerts: seq<int>)

  datatype Event =
    | Check(caller: nat)
    | Record(caller: nat, cost: int)
    | Abort(caller: nat)
    | NextMonth(month: int)
    | OtherVendor(row: UsageRow)

  function Step(cfg: Config, s: State, e: Event): State {
    match e
    case Check(caller) =>
      var used := UsedCredits(s.rows, s.month);
      if caller in s.inFlight || used >= cfg.budget then s else s.(inFlight := s.inFlight[caller := used])
    case Record(caller, cost) =>
      if caller !in s.inFlight then s
      else
        State(s.rows + [UsageRow(VENDOR, s.month, cost)], s.inFlight - {caller}, s.month,
              s.alerts + Alerts(cfg, s.inFlight[caller], s.inFlight[caller] + cost))
    case Abort(caller) => s.(inFlight := s.inFlight - {caller})
    case NextMonth(month) => s.(month := month)
    case OtherVendor(row) => s.(rows := s.rows + [row])
  }

  function Run(cfg: Config, s: State, events: seq<Event>): State {
    if events == [] then s else Step(cfg, Run(cfg, s, events[..|events| - 1]), events[|events| - 1])
  }

  // ----- the overrun is bounded

  /** At most `k` callers at once, no call dearer than `c`, and months that do not go back. */
  predicate Allowed(k: nat, c: nat, s: State, e: Event) {
    match e
    case Check(caller) => |s.inFlight| < k
    case Record(_, cost) => cost <= c
    case Abort(_) => true
    case NextMonth(month) => s.month <= month
    case OtherVendor(row) => row.vendor != VENDOR
  }

  ghost predicate AllowedRun(cfg: Config, k: nat, c: nat, s: State, events: seq<Event>) {
    events != [] ==>
      var front := events[..|events| - 1];
      AllowedRun(cfg, k, c, s, front) && Allowed(k, c, Run(cfg, s, front), events[|events| - 1])
  }

  /** The most that `n` callers in flight can still cost. */
  function Reserve(n: nat, c: nat): int {
    n * c
  }

  lemma ReserveRises(m: nat, n: nat, c: nat)
    requires m <= n
    ensures Reserve(m, c) <= Reserve(n, c)
  {
    assert 0 <= (n - m) * c;
  }

  lemma ReserveStep(n: nat, c: nat)
    ensures Reserve(n + 1, c) == Reserve(n, c) + c && 0 <= Reserve(n, c)
  {
  }

  /** What every caller in flight may still cost is already allowed for. */
  ghost predicate Covered(cfg: Config, k: nat, c: nat, s: State) {
    && |s.inFlight| <= k
    && UsedCredits(s.rows, s.month) + Reserve(|s.inFlight|, c) <= cfg.budget - 1 + Reserve(k, c)
    && (forall month :: UsedCredits(s.rows, month) <= cfg.budget - 1 + Reserve(k, c))
    && (forall month :: month > s.month ==> UsedCredits(s.rows, month) <= 0)
  }

  lemma CheckKeepsCovered(cfg: Config, k: nat, c: nat, s: State, caller: nat)
    requires Covered(cfg, k, c, s) && |s.inFlight| < k
    ensures Covered(cfg, k, c, Step(cfg, s, Check(caller)))
  {
    hide UsedCredits, Reserve;
    var s' := Step(cfg, s, Check(caller));
    if s' != s {
      assert s'.inFlight.Keys == s.inFlight.Keys + {caller};
      ReserveRises(|s'.inFlight|, k, c);
    }
  }

  lemma RecordKeepsCovered(cfg: Config, k: nat, c: nat, s: State, caller: nat, cost: int)
    requires Covered(cfg, k, c, s) && cost <= c
    ensures Covered(cfg, k, c, Step(cfg, s, Record(caller, cost)))
  {
    hide UsedCredits, Reserve, Alerts;
    var s' := Step(cfg, s, Record(caller, cost));
    if caller in s.inFlight {
      assert s.inFlight.Keys == s'.inFlight.Keys + {caller};
      ReserveStep(|s'.inFlight|, c);
      forall month
        ensures UsedCredits(s'.rows, month) == UsedCredits(s.rows, month) + if month == s.month then cost else 0
      {
        UsedAfter(s.rows, UsageRow(VENDOR, s.month, cost), month);
      }
    }
  }

  lemma AbortKeepsCovered(cfg: Config, k: nat, c: nat, s: State, caller: nat)
    requires Covered(cfg, k, c, s)
    ensures Covered(cfg, k, c, Step(cfg, s, Abort(caller)))
  {
    hide UsedCredits, Reserve;
    var s' := Step(cfg, s, Abort(caller));
    assert s'.inFlight.Keys <= s.inFlight.Keys;
    Subset(s'.inFlight.Keys, s.inFlight.Keys);
    assert |s'.inFlight| == |s'.inFlight.Keys| && |s.inFlight| == |s.inFlight.Keys|;
    ReserveRises(|s'.inFlight|, |s.inFlight|, c);
  }

  lemma MonthKeepsCovered(cfg: Config, k: nat, c: nat, s: State, month: int)
    requires cfg.budget >= 1 && Covered(cfg, k, c, s) && s.month <= month
    ensures Covered(cfg, k, c, Step(cfg, s, NextMonth(month)))
  {
    hide UsedCredits, Reserve;
    ReserveRises(|s.inFlight|, k, c);
  }

  lemma OtherKeepsCovered(cfg: Config, k: nat, c: nat, s: State, row: UsageRow)
    requires Covered(cfg, k, c, s) && row.vendor != VENDOR
    ensures Covered(cfg, k, c, Step(cfg, s, OtherVendor(row)))
  {
    hide UsedCredits, Reserve;
    forall month ensures UsedCredits(s.rows + [row], month) == UsedCredits(s.rows, month) {
      UsedAfter(s.rows, row, month);
    }
  }

  lemma StepKeepsCovered(cfg: Config, k: nat, c: nat, s: State, e: Event)
    requires cfg.budget >= 1 && Covered(cfg, k, c, s) && Allowed(k, c, s, e)
    ensures Covered(cfg, k, c, Step(cfg, s, e))
  {
    hide Covered, Step;
    match e
    case Check(caller) => CheckKeepsCovered(cfg, k, c, s, caller);
    case Record(caller, cost) => RecordKeepsCovered(cfg, k, c, s, caller, cost);
    case Abort(caller) => AbortKeepsCovered(cfg, k, c, s, caller);
    case NextMonth(month) => MonthKeepsCovered(cfg, k, c, s, month);
    case OtherVendor(row) => OtherKeepsCovered(cfg, k, c, s, row);
  }

  lemma Subset(a: set<nat>, b: set<nat>)
    requires a <= b
    ensures |a| <= |b|
  {
    assert b == a + (b - a);
  }

  /**
   With at most `k` callers in flight and no call dearer than `c`, no month's
   recorded credits pass budget - 1 + k * c, in any interleaving of checks,
   records and aborted calls, across month ends too.
   */
  lemma {:induction false} OverrunBounded(cfg: Config, k: nat, c: nat, s: State, events: seq<Event>)
    requires cfg.budget >= 1 && Covered(cfg, k, c, s) && AllowedRun(cfg, k, c, s, events)
    ensures Covered(cfg, k, c, Run(cfg, s, events))
    ensures forall month :: UsedCredits(Run(cfg, s, events).rows, month) <= cfg.budget - 1 + Reserve(k, c)
  {
    if events != [] {
      hide Step, Allowed;
      OverrunBounded(cfg, k, c, s, events[..|events| - 1]);
      StepKeepsCovered(cfg, k, c, Run(cfg, s, events[..|events| - 1]), events[|events| - 1]);
    }
  }

  /** In particular from an empty ledger. */
  lemma MonthlyCreditsBounded(cfg: Config, k: nat, c: nat, month: int, events: seq<Event>)
    requires cfg.budget >= 1 && AllowedRun(cfg, k, c, State([], map[], month, []), events)
    ensures
      var end := Run(cfg, State([], map[], month, []), events);
      forall m :: UsedCredits(end.rows, m) <= cfg.budget - 1 + Reserve(k, c)
  {
    var s := State([], map[], month, []);
    ReserveRises(0, k, c);
    assert Covered(cfg, k, c, s);
    hide Covered, Run;
    OverrunBounded(cfg, k, c, s, events);
  }

  function Callers(k: nat): set<nat> {
    if k == 0 then {} else Callers(k - 1) + {k - 1}
  }

  lemma {:induction false} CallersAre(k: nat, i: nat)
    ensures |Callers(k)| == k && (i in Callers(k) <==> i < k)
  {
    if k > 0 {
      CallersAre(k - 1, k - 1);
      CallersAre(k - 1, i);
    }
  }

  /** Every caller below `k` checks; then all but the first `j` record a cost of `c`. */
  function Checks(k: nat): seq<Event> {
    if k == 0 then [] else Checks(k - 1) + [Check(k - 1)]
  }

  function Records(k: nat, j: nat, c: nat): seq<Event>
    decreases k - j
  {
    if j >= k then [] else Records(k, j + 1, c) + [Record(j, c)]
  }

  lemma CheckEffect(cfg: Config, k: nat, c: nat, s: State, caller: nat)
    requires caller !in s.inFlight && UsedCredits(s.rows, s.month) < cfg.budget && |s.inFlight| < k
    ensures Allowed(k, c, s, Check(caller))
    ensures
      var t := Step(cfg, s, Check(caller));
      t.rows == s.rows && t.month == s.month && t.inFlight.Keys == s.inFlight.Keys + {caller}
  {
    hide UsedCredits;
  }

  lemma RecordEffect(cfg: Config, k: nat, c: nat, s: State, caller: nat)
    requires caller in s.inFlight
    ensures Allowed(k, c, s, Record(caller, c))
    ensures
      var t := Step(cfg, s, Record(caller, c));
      && t.month == s.month && t.inFlight.Keys == s.inFlight.Keys - {caller}
      && UsedCredits(t.rows, s.month) == UsedCredits(s.rows, s.month) + c
  {
    hide UsedCredits, Alerts;
    UsedAfter(s.rows, UsageRow(VENDOR, s.month, c), s.month);
  }

  lemma RunNothing(cfg: Config, k: nat, c: nat, s: State)
    ensures Run(cfg, s, []) == s && AllowedRun(cfg, k, c, s, [])
  {
  }

  lemma NoCallers(s: State)
    requires s.inFlight == map[]
    ensures s.inFlight.Keys == Callers(0)
  {
  }

  lemma RunSnoc(cfg: Config, k: nat, c: nat, s: State, events: seq<Event>, e: Event)
    ensures Run(cfg, s, events + [e]) == Step(cfg, Run(cfg, s, events), e)
    ensures AllowedRun(cfg, k, c, s, events) && Allowed(k, c, Run(cfg, s, events), e) ==>
      AllowedRun(cfg, k, c, s, events + [e])
  {
    hide Step, Allowed;
    assert (events + [e])[..|events|] == events;
  }

  lemma CallersGrow(j: nat)
    ensures |Callers(j)| == j && j !in Callers(j) && Callers(j + 1) == Callers(j) + {j}
  {
    CallersAre(j, j);
  }

  lemma {:induction false} AfterChecks(cfg: Config, k: nat, c: nat, s: State, j: nat)
    requires j <= k && s.inFlight == map[] && UsedCredits(s.rows, s.month) < cfg.budget
    ensures
      var t := Run(cfg, s, Checks(j));
      t.rows == s.rows && t.month == s.month && t.inFlight.Keys == Callers(j)
    ensures AllowedRun(cfg, k, c, s, Checks(j))
  {
    hide UsedCredits, Step, Allowed, Run, AllowedRun, Callers;
    if j == 0 {
      RunNothing(cfg, k, c, s);
      NoCallers(s);
    } else {
      AfterChecks(cfg, k, c, s, j - 1);
      var t := Run(cfg, s, Checks(j - 1));
      CallersGrow(j - 1);
      assert |t.inFlight| == |t.inFlight.Keys|;
      CheckEffect(cfg, k, c, t, j - 1);
      RunSnoc(cfg, k, c, s, Checks(j - 1), Check(j - 1));
    }
  }

  lemma RecordsSnoc(k: nat, j: nat, c: nat)
    requires j < k
    ensures Records(k, j, c) == Records(k, j + 1, c) + [Record(j, c)]
  {
  }

  lemma {:induction false} AfterRecords(cfg: Config, k: nat, c: nat, s: State, j: nat)
    requires j <= k && s.inFlight.Keys == Callers(k)
    ensures
      var t := Run(cfg, s, Records(k, j, c));
      && t.month == s.month && t.inFlight.Keys == Callers(j)
      && UsedCredits(t.rows, s.month) == UsedCredits(s.rows, s.month) + Reserve(k - j, c)
    ensures AllowedRun(cfg, k, c, s, Records(k, j, c))
    decreases k - j
  {
    hide UsedCredits, Reserve, Step, Allowed, Callers, Run, AllowedRun;
    if j == k {
      RunNothing(cfg, k, c, s);
      ReserveNothing(c);
    } else {
      AfterRecords(cfg, k, c, s, j + 1);
      RecordsSnoc(k, j, c);
      hide Records;
      RunSnoc(cfg, k, c, s, Records(k, j + 1, c), Record(j, c));
      var t := Run(cfg, s, Records(k, j + 1, c));
      CallersDrop(j);
      RecordEffect(cfg, k, c, t, j);
      ReserveStep(k - j - 1, c);
    }
  }

  lemma CallersDrop(j: nat)
    ensures j in Callers(j + 1) && Callers(j + 1) - {j} == Callers(j)
  {
    CallersAre(j, j);
  }

  lemma ReserveNothing(c: nat)
    ensures Reserve(0, c) == 0
  {
  }

  /** The bound is the best one: with one credit left, `k` callers can bring the month to exactly it. */
  lemma OverrunAttained(cfg: Config, k: nat, c: nat, s: State)
    requires s.inFlight == map[] && UsedCredits(s.rows, s.month) == cfg.budget - 1
    ensures AllowedRun(cfg, k, c, s, Checks(k))
    ensures AllowedRun(cfg, k, c, Run(cfg, s, Checks(k)), Records(k, 0, c))
    ensures UsedCredits(Run(cfg, Run(cfg, s, Checks(k)), Records(k, 0, c)).rows, s.month) ==
        cfg.budget - 1 + Reserve(k, c)
  {
    hide Run, Reserve, UsedCredits;
    AfterChecks(cfg, k, c, s, k);
    CallersGrow(k);
    AfterRecords(cfg, k, c, Run(cfg, s, Checks(k)), 0);
  }

  // ----- alerts

  lemma {:induction false} CrossedCount(thresholds: seq<int>, before: int, after: int, t: int)
    ensures multiset(Crossed(thresholds, before, after))[t] ==
            if before < t <= after then multiset(thresholds)[t] else 0
  {
    if thresholds != [] {
      CrossedCount(thresholds[1..], before, after, t);
      assert thresholds == [thresholds[0]] + thresholds[1..];
    }
  }

  lemma PercentRises(a: int, b: int, budget: int)
    requires a <= b && budget > 0
    ensures Percent(a, budget) <= Percent(b, budget)
  {
    var x, y := Percent(a, budget), Percent(b, budget);
    if y < x {
      assert y + 1 <= x;
      Multiply(budget, y + 1, x);
    }
  }

  lemma Multiply(budget: int, a: int, b: int)
    requires a <= b && budget > 0
    ensures budget * a <= budget * b && budget * (a + 1) == budget * a + budget
  {
  }

  /** A rounded-down percentage is under a threshold exactly when the credits are under that share of the budget. */
  lemma PercentUnder(used: int, budget: int, t: int)
    requires budget > 0
    ensures Percent(used, budget) < t <==> used * 100 < t * budget
  {
    var q := Percent(used, budget);
    assert q * budget <= used * 100 < q * budget + budget;
    if q < t {
      Multiply(budget, q + 1, t);
    } else {
      Multiply(budget, t, q);
    }
  }

  /**
   What a record fires, in credits: with a hook and a budget, each listing of a
   threshold whose share of the budget lies above the credits before and not
   above those after.
   */
  lemma AlertsExactly(cfg: Config, usedBefore: int, usedAfter: int, t: int)
    ensures
      multiset(Alerts(cfg, usedBefore, usedAfter))[t] ==
      if cfg.hasHook && cfg.budget > 0 && usedBefore * 100 < t * cfg.budget <= usedAfter * 100
      then multiset(cfg.thresholds)[t] else 0
  {
    hide Percent, Crossed;
    if cfg.hasHook && cfg.budget > 0 {
      PercentUnder(usedBefore, cfg.budget, t);
      PercentUnder(usedAfter, cfg.budget, t);
      CrossedCount(cfg.thresholds, Percent(usedBefore, cfg.budget), Percent(usedAfter, cfg.budget), t);
    }
  }

  lemma NoneCrossed(a: int, b: int)
    ensures Crossed([], a, b) == []
  {
  }

  lemma {:induction false} CrossedAppends(first: seq<int>, rest: seq<int>, a: int, b: int)
    ensures Crossed(first + rest, a, b) == Crossed(first, a, b) + Crossed(rest, a, b)
  {
    hide Crossed;
    if first == [] {
      NoneCrossed(a, b);
      assert first + rest == rest;
    } else {
      assert (first + rest)[1..] == first[1..] + rest;
      CrossedStep(first + rest, a, b);
      CrossedStep(first, a, b);
      CrossedAppends(first[1..], rest, a, b);
    }
  }

  /** They fire in the order in which they are configured. */
  lemma AlertsInOrder(cfg: Config, first: seq<int>, rest: seq<int>, usedBefore: int, usedAfter: int)
    ensures
      Alerts(cfg.(thresholds := first + rest), usedBefore, usedAfter) ==
      Alerts(cfg.(thresholds := first), usedBefore, usedAfter) + Alerts(cfg.(thresholds := rest), usedBefore, usedAfter)
  {
    hide Percent, Crossed;
    if cfg.budget > 0 {
      CrossedAppends(first, rest, Percent(usedBefore, cfg.budget), Percent(usedAfter, cfg.budget));
    }
  }

  lemma CrossedStep(thresholds: seq<int>, a: int, b: int)
    requires thresholds != []
    ensures
      var rest := Crossed(thresholds[1..], a, b);
      Crossed(thresholds, a, b) == if a < thresholds[0] <= b then [thresholds[0]] + rest else rest
  {
  }

  lemma {:induction false} CrossedSameIff(thresholds: seq<int>, a: int, b: int, c: int, d: int)
    ensures Crossed(thresholds, a, b) == Crossed(thresholds, c, d) <==>
            forall t :: t in thresholds ==> (a < t <= b <==> c < t <= d)
  {
    if thresholds != [] {
      var first, rest := thresholds[0], thresholds[1..];
      CrossedSameIff(rest, a, b, c, d);
      CrossedStep(thresholds, a, b);
      CrossedStep(thresholds, c, d);
      hide Crossed;
      assert first in thresholds && forall t :: t in thresholds <==> t == first || t in rest;
      if a < first <= b && !(c < first <= d) {
        CrossedInside(rest, c, d);
        NotFirst(Crossed(rest, a, b), first, Crossed(rest, c, d), c, d);
      } else if c < first <= d && !(a < first <= b) {
        CrossedInside(rest, a, b);
        NotFirst(Crossed(rest, c, d), first, Crossed(rest, a, b), a, b);
      } else if a < first <= b {
        SameTail(first, Crossed(rest, a, b), Crossed(rest, c, d));
      }
    }
  }

  lemma CrossedInside(thresholds: seq<int>, a: int, b: int)
    ensures forall i :: 0 <= i < |Crossed(thresholds, a, b)| ==> a < Crossed(thresholds, a, b)[i] <= b
  {
  }

  lemma NotFirst(rest: seq<int>, first: int, other: seq<int>, c: int, d: int)
    requires !(c < first <= d) && forall i :: 0 <= i < |other| ==> c < other[i] <= d
    ensures [first] + rest != other
  {
    assert other != [] ==> c < other[0] <= d;
    assert ([first] + rest)[0] == first;
  }

  lemma SameTail(first: int, a: seq<int>, b: seq<int>)
    ensures [first] + a == [first] + b <==> a == b
  {
    if [first] + a == [first] + b {
      assert a == ([first] + a)[1..] == ([first] + b)[1..] == b;
    }
  }

  /** What a caller saw makes it fire just the thresholds that the month passes with its record. */
  ghost predicate SeenAsPassed(cfg: Config, seen: int, used: int, cost: int)
    requires cfg.budget > 0
  {
    forall t :: t in cfg.thresholds ==>
      (Percent(seen, cfg.budget) < t <= Percent(seen + cost, cfg.budget) <==>
       Percent(used, cfg.budget) < t <= Percent(used + cost, cfg.budget))
  }

  /** The two ranges of percentages hold the same numbers: they are equal, or both empty. */
  predicate SameRange(a: int, b: int, c: int, d: int) {
    (a == c && b == d) || (a == b && c == d)
  }

  lemma ToldApart(a: int, b: int, c: int, d: int) returns (t: int)
    requires a <= b && c <= d && !SameRange(a, b, c, d)
    ensures Crossed([t], a, b) != Crossed([t], c, d)
  {
    t := if a == b then d else if c == d then b
         else if b < d then d else if d < b then b
         else if a < c then c else a;
    CrossedSameIff([t], a, b, c, d);
    assert t in [t];
  }

  /** The record fires what the month passes however the thresholds are configured. */
  ghost predicate RightHoweverConfigured(cfg: Config, seen: int, used: int, cost: int) {
    forall thresholds ::
      Alerts(cfg.(thresholds := thresholds), seen, seen + cost) ==
      Alerts(cfg.(thresholds := thresholds), used, used + cost)
  }

  lemma AlertsAre(cfg: Config, thresholds: seq<int>, used: int, cost: int)
    requires cfg.hasHook && cfg.budget > 0
    ensures Alerts(cfg.(thresholds := thresholds), used, used + cost) ==
            Crossed(thresholds, Percent(used, cfg.budget), Percent(used + cost, cfg.budget))
  {
  }

  /**
   A record compares against what its caller saw at the check. It fires what the
   month passes exactly when every configured threshold lies in both ranges of
   percentages or in neither; and it does so however the thresholds are
   configured exactly when the two ranges are equal or both empty.
   */
  lemma AlertsRightIff(cfg: Config, seen: int, used: int, cost: nat)
    requires cfg.hasHook && cfg.budget > 0
    ensures Alerts(cfg, seen, seen + cost) == Alerts(cfg, used, used + cost) <==> SeenAsPassed(cfg, seen, used, cost)
    ensures
      RightHoweverConfigured(cfg, seen, used, cost) <==>
      SameRange(Percent(seen, cfg.budget), Percent(seen + cost, cfg.budget), Percent(used, cfg.budget),
                Percent(used + cost, cfg.budget))
  {
    hide Percent, Crossed, Alerts;
    var a, b := Percent(seen, cfg.budget), Percent(seen + cost, cfg.budget);
    var c, d := Percent(used, cfg.budget), Percent(used + cost, cfg.budget);
    PercentRises(seen, seen + cost, cfg.budget);
    PercentRises(used, used + cost, cfg.budget);
    assert cfg.(thresholds := cfg.thresholds) == cfg;
    forall thresholds
      ensures Alerts(cfg.(thresholds := thresholds), seen, seen + cost) ==
              Alerts(cfg.(thresholds := thresholds), used, used + cost) <==>
              Crossed(thresholds, a, b) == Crossed(thresholds, c, d)
    {
      AlertsAre(cfg, thresholds, seen, cost);
      AlertsAre(cfg, thresholds, used, cost);
    }
    CrossedSameIff(cfg.thresholds, a, b, c, d);
    if SameRange(a, b, c, d) {
      forall thresholds ensures Crossed(thresholds, a, b) == Crossed(thresholds, c, d) {
        CrossedSameIff(thresholds, a, b, c, d);
      }
    } else {
      var t := ToldApart(a, b, c, d);
      assert Alerts(cfg.(thresholds := [t]), seen, seen + cost) != Alerts(cfg.(thresholds := [t]), used, used + cost);
    }
  }

  /** Nothing but this vendor's nonnegative costs is added to the month, which does not change. */
  predicate InMonth(s: State, e: Event) {
    match e
    case Record(_, cost) => cost >= 0
    case NextMonth(month) => month == s.month
    case OtherVendor(row) => row.vendor != VENDOR
    case _ => true
  }

  /** And a record fires what the month passes. */
  ghost predicate Timely(cfg: Config, s: State, e: Event)
    requires cfg.budget > 0
  {
    InMonth(s, e) &&
    (e.Record? && e.caller in s.inFlight ==>
     SeenAsPassed(cfg, s.inFlight[e.caller], UsedCredits(s.rows, s.month), e.cost))
  }

  ghost predicate TimelyRun(cfg: Config, s: State, events: seq<Event>)
    requires cfg.budget > 0
  {
    events != [] ==>
      var front := events[..|events| - 1];
      TimelyRun(cfg, s, front) && Timely(cfg, Run(cfg, s, front), events[|events| - 1])
  }

  lemma TimelyStep(cfg: Config, s: State, e: Event)
    requires cfg.hasHook && cfg.budget > 0 && Timely(cfg, s, e)
    ensures
      var s' := Step(cfg, s, e);
      && s'.month == s.month && UsedCredits(s.rows, s.month) <= UsedCredits(s'.rows, s.month)
      && s'.alerts == s.alerts + Alerts(cfg, UsedCredits(s.rows, s.month), UsedCredits(s'.rows, s.month))
  {
    hide UsedCredits, Alerts, SeenAsPassed;
    var used := UsedCredits(s.rows, s.month);
    NothingPassed(cfg, used);
    if e.Record? && e.caller in s.inFlight {
      UsedAfter(s.rows, UsageRow(VENDOR, s.month, e.cost), s.month);
      AlertsRightIff(cfg, s.inFlight[e.caller], used, e.cost);
    } else if e.OtherVendor? {
      UsedAfter(s.rows, e.row, s.month);
    }
  }

  lemma CrossedNothing(thresholds: seq<int>, a: int)
    ensures Crossed(thresholds, a, a) == []
  {
  }

  lemma NothingPassed(cfg: Config, used: int)
    ensures Alerts(cfg, used, used) == []
  {
    hide Percent;
    if cfg.budget > 0 {
      CrossedNothing(cfg.thresholds, Percent(used, cfg.budget));
    }
  }

  /**
   Over a run within a month whose records are all timely, however many callers
   overlap, every configured threshold fires once (as often as it is listed) if
   the month's percentage passes it, and not at all otherwise.
   */
  lemma {:induction false} ThresholdsFireOnce(cfg: Config, s: State, events: seq<Event>, t: int)
    requires cfg.hasHook && cfg.budget > 0 && TimelyRun(cfg, s, events)
    ensures
      var end := Run(cfg, s, events);
      var before, after := UsedCredits(s.rows, s.month), UsedCredits(end.rows, s.month);
      && end.month == s.month && before <= after
      && multiset(end.alerts)[t] == multiset(s.alerts)[t] +
         if Percent(before, cfg.budget) < t <= Percent(after, cfg.budget) then multiset(cfg.thresholds)[t] else 0
  {
    hide Percent, Crossed, UsedCredits, Step, Timely;
    if events != [] {
      var middle, end := Run(cfg, s, events[..|events| - 1]), Run(cfg, s, events);
      ThresholdsFireOnce(cfg, s, events[..|events| - 1], t);
      TimelyStep(cfg, middle, events[|events| - 1]);
      var start, before, after := UsedCredits(s.rows, s.month), UsedCredits(middle.rows, s.month),
          UsedCredits(end.rows, s.month);
      PercentRises(start, before, cfg.budget);
      PercentRises(before, after, cfg.budget);
      CrossedCount(cfg.thresholds, Percent(before, cfg.budget), Percent(after, cfg.budget), t);
    }
  }

  /** Calls one after the other: each checks, and records if it was let through. */
  function Calls(costs: seq<int>): seq<Event> {
    if costs == [] then [] else Calls(costs[..|costs| - 1]) + [Check(0), Record(0, costs[|costs| - 1])]
  }

  lemma TimelySnoc(cfg: Config, s: State, events: seq<Event>, e: Event)
    requires cfg.budget > 0 && TimelyRun(cfg, s, events) && Timely(cfg, Run(cfg, s, events), e)
    ensures TimelyRun(cfg, s, events + [e]) && Run(cfg, s, events + [e]) == Step(cfg, Run(cfg, s, events), e)
  {
    hide Timely, Step;
    assert (events + [e])[..|events|] == events;
  }

  lemma CallIsTimely(cfg: Config, s: State, cost: nat)
    requires cfg.budget > 0 && s.inFlight == map[]
    ensures
      var checked := Step(cfg, s, Check(0));
      && Timely(cfg, s, Check(0)) && Timely(cfg, checked, Record(0, cost))
      && Step(cfg, checked, Record(0, cost)).inFlight == map[]
  {
    hide UsedCredits, Percent, Alerts;
  }

  /** In sequential use every record is timely, so every threshold fires as it should. */
  lemma {:induction false} SequentialCallsAreTimely(cfg: Config, s: State, costs: seq<nat>)
    requires cfg.budget > 0 && s.inFlight == map[]
    ensures TimelyRun(cfg, s, Calls(costs)) && Run(cfg, s, Calls(costs)).inFlight == map[]
  {
    hide Timely, Step;
    if costs != [] {
      var earlier, cost := Calls(costs[..|costs| - 1]), costs[|costs| - 1];
      SequentialCallsAreTimely(cfg, s, costs[..|costs| - 1]);
      CallIsTimely(cfg, Run(cfg, s, earlier), cost);
      TimelySnoc(cfg, s, earlier, Check(0));
      TimelySnoc(cfg, s, earlier + [Check(0)], Record(0, cost));
      assert Calls(costs) == earlier + [Check(0)] + [Record(0, cost)];
    }
  }

  lemma CallsOne(cfg: Config, s: State, cost: int)
    ensures Run(cfg, s, Calls([cost])) == Step(cfg, Step(cfg, s, Check(0)), Record(0, cost))
  {
    hide Step;
    RunTwo(cfg, s, Check(0), Record(0, cost), []);
    assert Calls([cost]) == [Check(0), Record(0, cost)] == [Check(0), Record(0, cost)] + [];
  }

  /** Two callers that both saw an unspent month each compare against zero. */
  lemma OverlapAlerts(cfg: Config, month: int, c: int, d: int)
    requires cfg.budget > 0
    ensures
      var end := Run(cfg, State([], map[], month, []), [Check(0), Check(1), Record(0, c), Record(1, d)]);
      UsedCredits(end.rows, month) == c + d && end.alerts == Alerts(cfg, 0, c) + Alerts(cfg, 0, d)
  {
    hide Run, Alerts;
    var s := State([], map[], month, []);
    RunTwo(cfg, s, Check(0), Check(1), [Record(0, c), Record(1, d)]);
    assert [Check(0), Check(1)] + [Record(0, c), Record(1, d)] == [Check(0), Check(1), Record(0, c), Record(1, d)];
    var t := Step(cfg, Step(cfg, s, Check(0)), Check(1));
    RunTwo(cfg, t, Record(0, c), Record(1, d), []);
    assert [Record(0, c), Record(1, d)] + [] == [Record(0, c), Record(1, d)];
    RunNothing(cfg, 0, 0, Step(cfg, Step(cfg, t, Record(0, c)), Record(1, d)));
  }

  /** So half the budget can be passed with no alert, and with two. */
  lemma OverlapMisfires()
    ensures
      var cfg, start := Config(100, [50], true), State([], map[], 1, []);
      && Run(cfg, start, [Check(0), Check(1), Record(0, 30), Record(1, 30)]).alerts == []
      && Run(cfg, start, [Check(0), Check(1), Record(0, 60), Record(1, 60)]).alerts == [50, 50]
  {
    hide Run;
    var cfg := Config(100, [50], true);
    OverlapAlerts(cfg, 1, 30, 30);
    OverlapAlerts(cfg, 1, 60, 60);
    assert Alerts(cfg, 0, 30) == [] && Alerts(cfg, 0, 60) == [50];
  }

  lemma RunTwo(cfg: Config, s: State, a: Event, b: Event, rest: seq<Event>)
    ensures Run(cfg, s, [a, b] + rest) == Run(cfg, Step(cfg, Step(cfg, s, a), b), rest)
    decreases |rest|
  {
    hide Step;
    if rest == [] {
      assert [a, b] + rest == [a, b] && [a, b][..1] == [a] && [a][..0] == [];
      assert Run(cfg, s, [a]) == Step(cfg, s, a);
    } else {
      var all := [a, b] + rest;
      assert all[..|all| - 1] == [a, b] + rest[..|rest| - 1];
      RunTwo(cfg, s, a, b, rest[..|rest| - 1]);
    }
  }

  // ----- the client

  datatype Error = BudgetExceeded(used: int, budget: int) | ServiceError(status: int)

  class ScrapingBeeClient {
    const cfg: Config
    var rows: seq<UsageRow>
    var alerts: seq<int>

    constructor (cfg: Config)
      ensures this.cfg == cfg && rows == [] && alerts == []
    {
      this.cfg, rows, alerts := cfg, [], [];
    }

    /**
     One call with nobody else in flight. The month may turn during the fetch;
     a failing status is recorded and alerted like any other, then raised.
     */
    method Get(month: int, monthAtRecord: int, cost: int, status: int) returns (r: Result<int, Error>)
      modifies this
      ensures
        var used := UsedCredits(old(rows), month);
        var s := State(old(rows), map[], month, old(alerts));
        if used >= cfg.budget then
          r == Err(BudgetExceeded(used, cfg.budget)) && rows == old(rows) && alerts == old(alerts)
        else
          && r == (if status >= 400 then Err(ServiceError(status)) else Ok(cost))
          && State(rows, map[], monthAtRecord, alerts) ==
             Step(cfg, Step(cfg, Step(cfg, s, Check(0)), NextMonth(monthAtRecord)), Record(0, cost))
      ensures
        monthAtRecord == month ==>
          State(rows, map[], month, alerts) == Run(cfg, State(old(rows), map[], month, old(alerts)), Calls([cost]))
    {
      CallsOne(cfg, State(rows, map[], month, alerts), cost);
      var used := UsedCreditsThisMonth(month);
      if used >= cfg.budget {
        return Err(BudgetExceeded(used, cfg.budget));
      }
      rows := rows + [UsageRow(VENDOR, monthAtRecord, cost)];
      MaybeAlert(used, used + cost);
      if status >= HTTP_CLIENT_ERROR_THRESHOLD {
        return Err(ServiceError(status));
      }
      return Ok(cost);
    }

    method UsedCreditsThisMonth(month: int) returns (used: int)
      ensures used == UsedCredits(rows, month)
    {
      hide UsedCredits, CostIn;
      UsedNothing(rows, month);
      used := 0;
      var i := 0;
      while i < |rows|
        invariant 0 <= i <= |rows|
        invariant used == UsedCredits(rows[..i], month)
      {
        UsedAfter(rows[..i], rows[i], month);
        assert rows[..i + 1] == rows[..i] + [rows[i]];
        used := used + CostIn(rows[i], month);
        i := i + 1;
      }
      assert rows[..i] == rows;
    }

    method MaybeAlert(usedBefore: int, usedAfter: int)
      modifies this`alerts
      ensures alerts == old(alerts) + Alerts(cfg, usedBefore, usedAfter)
    {
      if !cfg.hasHook {
        return;
      }
      if cfg.budget <= 0 {
        return;
      }
      var before, after := Percent(usedBefore, cfg.budget), Percent(usedAfter, cfg.budget);
      var i := 0;
      while i < |cfg.thresholds|
        invariant 0 <= i <= |cfg.thresholds|
        invariant alerts + Crossed(cfg.thresholds[i..], before, after) ==
            old(alerts) + Crossed(cfg.thresholds, before, after)
      {
        if before < cfg.thresholds[i] <= after {
          alerts := alerts + [cfg.thresholds[i]];
        }
        i := i + 1;
      }
    }
  }
}
