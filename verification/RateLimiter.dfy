/**
 The lock-protected rate limiter (src/ingestion/amf/rate_limiter.py): the object,
 and any number of tasks sharing it. Seconds are reals; clock readings and
 jitter draws are inputs.
 */
module RateLimiter {
  import opened Common
  import opened Products

  function Wait(interval: real, last: real, now: real, draw: real): real {
    interval - (now - last) + draw
  }

  /** The earliest moment at which a task that read `now` can go on. */
  function Earliest(interval: real, last: real, now: real, draw: real): real {
    var wait := Wait(interval, last, now, draw);
    if wait > 0.0 then now + wait else now
  }

  /** Waiting, or finding there is nothing to wait for, both mean a full interval since the last call. */
  lemma EarliestIsFar(interval: real, last: real, now: real, draw: real)
    requires 0.0 <= draw
    ensures Earliest(interval, last, now, draw) >= last + interval
    ensures Earliest(interval, last, now, draw) >= now
  {
  }

  /** No task waits past the last call by more than one interval and its own jitter, nor waits when that has gone by. */
  lemma EarliestIs(interval: real, last: real, now: real, draw: real)
    ensures
      var due := last + interval + draw;
      Earliest(interval, last, now, draw) == if now >= due then now else due
  {
  }

  datatype ConfigError = RateNotPositive | JitterNegative

  class RateLimiter {
    const interval: real
    const jitter: real
    var last: real

    constructor (rate: real, jitter: real)
      requires rate > 0.0 && jitter >= 0.0
      ensures this.interval == 1.0 / rate && this.jitter == jitter && last == 0.0
    {
      this.interval, this.jitter, last := 1.0 / rate, jitter, 0.0;
    }

    static method Create(rate: real, jitter: real) returns (r: Result<RateLimiter, ConfigError>)
      ensures r.Err? <==> rate <= 0.0 || jitter < 0.0
      ensures rate <= 0.0 ==> r == Err(RateNotPositive)
      ensures r.Ok? ==> fresh(r.value) && Times(r.value.interval, rate) == 1.0
      ensures r.Ok? ==> r.value.jitter == jitter && r.value.last == 0.0
    {
      if rate <= 0.0 {
        return Err(RateNotPositive);
      }
      if jitter < 0.0 {
        return Err(JitterNegative);
      }
      var limiter := new RateLimiter(rate, jitter);
      TimesQuotient(1.0, rate);
      return Ok(limiter);
    }

    /**
     `now` is the clock at entry, `draw` the random jitter, `done` the clock when
     the sleep, if any, is over; a sleep lasts at least as long as asked.
     */
    method Acquire(now: real, draw: real, done: real)
      requires 0.0 <= draw <= jitter
      requires done >= Earliest(interval, last, now, draw)
      modifies this
      ensures last == done && last >= old(last) + interval
    {
      EarliestIsFar(interval, last, now, draw);
      last := done;
    }
  }

  // ----- many tasks, one lock

  /** The task inside the lock, and the earliest moment its sleep can end. */
  datatype Holder = Holder(task: nat, until: real)

  /** `granted` lists the completion times of all acquires, in order. */
  datatype State = State(last: real, clock: real, holder: Option<Holder>, granted: seq<real>)

  datatype Event =
    | Tick(clock: real)
    | Enter(task: nat, draw: real)
    | Leave(task: nat)
    | CancelSleep(task: nat)

  predicate Possible(jitter: real, s: State, e: Event) {
    match e
    case Tick(clock) => s.clock <= clock
    case Enter(_, draw) => s.holder.None? && 0.0 <= draw <= jitter
    case Leave(task) => s.holder.Some? && s.holder.value.task == task && s.holder.value.until <= s.clock
    case CancelSleep(task) => s.holder.Some? && s.holder.value.task == task
  }

  function Step(interval: real, s: State, e: Event): State {
    match e
    case Tick(clock) => s.(clock := clock)
    case Enter(task, draw) => s.(holder := Some(Holder(task, Earliest(interval, s.last, s.clock, draw))))
    case Leave(_) => s.(last := s.clock, holder := None, granted := s.granted + [s.clock])
    case CancelSleep(_) => s.(holder := None)
  }

  function Run(interval: real, s: State, events: seq<Event>): State {
    if events == [] then s else Step(interval, Run(interval, s, events[..|events| - 1]), events[|events| - 1])
  }

  ghost predicate PossibleRun(interval: real, jitter: real, s: State, events: seq<Event>) {
    events != [] ==>
      var front := events[..|events| - 1];
      PossibleRun(interval, jitter, s, front) && Possible(jitter, Run(interval, s, front), events[|events| - 1])
  }

  const START := State(0.0, 0.0, None, [])

  /** A completed call and a cancelled sleep both let the next task in, and only the first moves the stamp. */
  lemma LockIsReleased(interval: real, jitter: real, s: State, task: nat, next: nat, draw: real)
    requires 0.0 <= draw <= jitter
    ensures Possible(jitter, Step(interval, s, Leave(task)), Enter(next, draw))
    ensures Possible(jitter, Step(interval, s, CancelSleep(task)), Enter(next, draw))
    ensures Step(interval, s, Leave(task)).last == s.clock && Step(interval, s, CancelSleep(task)).last == s.last
  {
  }

  ghost predicate Invariant(interval: real, s: State) {
    && (s.granted != [] ==> s.last == s.granted[|s.granted| - 1])
    && (s.holder.Some? ==> s.holder.value.until >= s.last + interval)
    && (forall i :: 0 <= i < |s.granted| - 1 ==> s.granted[i + 1] >= s.granted[i] + interval)
  }

  lemma {:induction false} InvariantHolds(interval: real, jitter: real, s: State, events: seq<Event>)
    requires Invariant(interval, s) && PossibleRun(interval, jitter, s, events)
    ensures Invariant(interval, Run(interval, s, events))
  {
    if events != [] {
      InvariantHolds(interval, jitter, s, events[..|events| - 1]);
    }
  }

  lemma {:induction false} Span(interval: real, times: seq<real>, i: nat, k: nat)
    requires i + k < |times|
    requires forall j :: 0 <= j < |times| - 1 ==> times[j + 1] >= times[j] + interval
    ensures times[i + k] - times[i] >= Times(k as real, interval)
  {
    TimesOne(interval);
    if k > 0 {
      Span(interval, times, i, k - 1);
      TimesAdd((k - 1) as real, 1.0, interval);
    }
  }

  /**
   For any number of tasks, any interleaving, and cancelled sleeps too: k + 1
   consecutive completions span at least k intervals, that is k / rate seconds.
   */
  lemma AcquiresAreSpaced(rate: real, jitter: real, s: State, events: seq<Event>, i: nat, k: nat)
    requires rate > 0.0
    requires Invariant(1.0 / rate, s) && PossibleRun(1.0 / rate, jitter, s, events)
    requires i + k < |Run(1.0 / rate, s, events).granted|
    ensures
      var granted := Run(1.0 / rate, s, events).granted;
      Times(granted[i + k] - granted[i], rate) >= k as real
  {
    hide Times, Run, PossibleRun;
    var interval := 1.0 / rate;
    InvariantHolds(interval, jitter, s, events);
    var granted := Run(interval, s, events).granted;
    Span(interval, granted, i, k);
    TimesScale(Times(k as real, interval), granted[i + k] - granted[i], rate);
    Associate(k as real, interval, rate);
    TimesQuotient(1.0, rate);
    TimesOne(k as real);
    Commute(k as real, 1.0);
  }

  lemma Associate(a: real, b: real, c: real)
    ensures Times(Times(a, b), c) == Times(a, Times(b, c))
  {
  }

  lemma StartIsGood(interval: real)
    ensures Invariant(interval, START)
  {
  }

  /** In particular for every run of a new limiter. */
  lemma NewLimiterSpaces(rate: real, jitter: real, events: seq<Event>, i: nat, k: nat)
    requires rate > 0.0 && PossibleRun(1.0 / rate, jitter, START, events)
    requires i + k < |Run(1.0 / rate, START, events).granted|
    ensures
      var granted := Run(1.0 / rate, START, events).granted;
      Times(granted[i + k] - granted[i], rate) >= k as real
  {
    hide Times, Run, PossibleRun;
    StartIsGood(1.0 / rate);
    AcquiresAreSpaced(rate, jitter, START, events, i, k);
  }
}
