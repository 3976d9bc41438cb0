/**
 The next instant at a given hour of Paris local time (src/trading/scheduler.py,
 `next_paris_time`). Instants and wall clocks count microseconds. Paris is one
 hour ahead of UTC, two in summer time, and changes only at 01:00 UTC (Articles
 2 and 3 of Directive 2000/84/EC); on which days is left open.
 */
module ParisTime {

  const HOUR := 3_600_000_000
  const DAY := 86_400_000_000

  /** Whether summer time holds from 01:00 UTC of a day to 01:00 UTC of the next. */
  type Zone = int -> bool

  function Offset(zone: Zone, day: int): int {
    if zone(day) then 2 * HOUR else HOUR
  }

  /** The day whose 01:00 UTC is the latest one not after `t`. */
  function SlotOf(t: int): int {
    (t - HOUR) / DAY
  }

  function Local(zone: Zone, t: int): int {
    t + Offset(zone, SlotOf(t))
  }

  /** The second reading of a wall clock that was put back. */
  predicate Fold(zone: Zone, t: int) {
    !zone(SlotOf(t)) && zone(SlotOf(t - HOUR))
  }

  /**
   The offset of a wall clock reading: between 02:00 and 03:00 of a day it may be
   skipped or doubled, and then the fold says which side of the change it takes.
   */
  function WallOffset(zone: Zone, wall: int, fold: bool): int {
    var day := (wall - 2 * HOUR) / DAY;
    if wall - day * DAY >= 3 * HOUR || fold then Offset(zone, day) else Offset(zone, day - 1)
  }

  /** Setting the hour keeps the fold of `now`; adding a day clears it. */
  function NextParisTime(zone: Zone, now: int, hour: int): int {
    var local := Local(zone, now);
    var today := (local / DAY) * DAY + hour * HOUR;
    var target := if today <= local then today + DAY else today;
    target - WallOffset(zone, target, today > local && Fold(zone, now))
  }

  predicate AtHour(zone: Zone, t: int, hour: int) {
    Local(zone, t) % DAY == hour * HOUR
  }

  /** The least instant after `now` at which the local clock shows the hour, within 25 hours. */
  ghost predicate IsNext(zone: Zone, now: int, hour: int, r: int) {
    && now < r <= now + 25 * HOUR
    && AtHour(zone, r, hour)
    && forall t :: now < t < r ==> !AtHour(zone, t, hour)
  }

  /** The day whose offset holds when the clock shows an hour other than 2. */
  function SlotAt(day: int, hour: int): int {
    if hour >= 3 then day else day - 1
  }

  /** The instant of an hour of a day, under the offset of a given slot. */
  function Instant(zone: Zone, day: int, hour: int, slot: int): int {
    day * DAY + hour * HOUR - Offset(zone, slot)
  }

  lemma SlotBounds(t: int)
    ensures SlotOf(t) * DAY + HOUR <= t < (SlotOf(t) + 1) * DAY + HOUR
  {
  }

  lemma SlotUnique(t: int, slot: int)
    requires slot * DAY + HOUR <= t < (slot + 1) * DAY + HOUR
    ensures SlotOf(t) == slot
  {
    SlotBounds(t);
  }

  lemma DayUnique(wall: int, day: int, rest: int)
    requires wall == day * DAY + rest && 0 <= rest < DAY
    ensures wall / DAY == day && wall % DAY == rest
  {
    var q, m := wall / DAY, wall % DAY;
    assert wall == q * DAY + m;
    assert (q - day) * DAY == rest - m;
  }

  /** The clock of a plain hour is before or after `now` on the wall as it is in time. */
  lemma WallOrder(zone: Zone, now: int, day: int, hour: int)
    requires 0 <= hour <= 23 && hour != 2
    ensures
      var t := Instant(zone, day, hour, SlotAt(day, hour));
      && (now < t <==> Local(zone, now) < day * DAY + hour * HOUR)
      && (now == t <==> Local(zone, now) == day * DAY + hour * HOUR)
  {
    var s, u := SlotAt(day, hour), SlotOf(now);
    SlotBounds(now);
    if u < s {
      assert (u + 1) * DAY <= s * DAY;
    } else if u > s {
      assert (s + 1) * DAY <= u * DAY;
    }
  }

  /** So each day has exactly one instant at that hour. */
  lemma OneInstantADay(zone: Zone, t: int, day: int, hour: int)
    requires 0 <= hour <= 23 && hour != 2
    ensures Local(zone, Instant(zone, day, hour, SlotAt(day, hour))) == day * DAY + hour * HOUR
    ensures AtHour(zone, t, hour) <==>
      t == Instant(zone, Local(zone, t) / DAY, hour, SlotAt(Local(zone, t) / DAY, hour))
  {
    hide Local, Instant;
    WallOrder(zone, Instant(zone, day, hour, SlotAt(day, hour)), day, hour);
    var d := Local(zone, t) / DAY;
    WallOrder(zone, t, d, hour);
    assert Local(zone, t) == d * DAY + Local(zone, t) % DAY;
  }

  lemma PlainWallOffset(zone: Zone, day: int, hour: int, fold: bool)
    requires 0 <= hour <= 23 && hour != 2
    ensures WallOffset(zone, day * DAY + hour * HOUR, fold) == Offset(zone, SlotAt(day, hour))
  {
    var wall := day * DAY + hour * HOUR;
    if hour >= 3 {
      DayUnique(wall - 2 * HOUR, day, (hour - 2) * HOUR);
    } else {
      DayUnique(wall - 2 * HOUR, day - 1, (hour + 22) * HOUR);
    }
  }

  /** The code computes the instant of the hour today if it is still to come, and tomorrow's otherwise. */
  lemma ComputesInstant(zone: Zone, now: int, hour: int)
    requires 0 <= hour <= 23 && hour != 2
    ensures
      var today := Local(zone, now) / DAY;
      var day := if today * DAY + hour * HOUR <= Local(zone, now) then today + 1 else today;
      NextParisTime(zone, now, hour) == Instant(zone, day, hour, SlotAt(day, hour))
  {
    hide WallOffset, Local, Offset, Fold;
    var today := Local(zone, now) / DAY;
    var fold := today * DAY + hour * HOUR > Local(zone, now) && Fold(zone, now);
    PlainWallOffset(zone, today, hour, fold);
    PlainWallOffset(zone, today + 1, hour, fold);
    assert today * DAY + hour * HOUR + DAY == (today + 1) * DAY + hour * HOUR;
  }

  lemma NoneBetween(zone: Zone, now: int, hour: int, day: int, t: int)
    requires 0 <= hour <= 23 && hour != 2
    requires (day - 1) * DAY + hour * HOUR <= Local(zone, now)
    requires now < t < Instant(zone, day, hour, SlotAt(day, hour))
    ensures !AtHour(zone, t, hour)
  {
    hide Local, Instant;
    OneInstantADay(zone, t, 0, hour);
    var d := Local(zone, t) / DAY;
    WallOrder(zone, now, d, hour);
    WallOrder(zone, t, day, hour);
    assert Local(zone, t) == d * DAY + Local(zone, t) % DAY;
  }

  /** For every hour but 2, every zone and every moment the result is the next such instant, at most 25 hours off. */
  lemma NextTimeIsNext(zone: Zone, now: int, hour: int)
    requires 0 <= hour <= 23 && hour != 2
    ensures IsNext(zone, now, hour, NextParisTime(zone, now, hour))
  {
    var local := Local(zone, now);
    var today := local / DAY;
    var day := if today * DAY + hour * HOUR <= local then today + 1 else today;
    var r := NextParisTime(zone, now, hour);
    ComputesInstant(zone, now, hour);
    assert today * DAY <= local < (today + 1) * DAY;
    WallOrder(zone, now, day, hour);
    OneInstantADay(zone, now, day, hour);
    DayUnique(day * DAY + hour * HOUR, day, hour * HOUR);
    forall t | now < t < r ensures !AtHour(zone, t, hour) {
      assert (day - 1) * DAY + hour * HOUR <= local;
      NoneBetween(zone, now, hour, day, t);
    }
    WithinTwentyFive(zone, now, day, hour);
  }

  lemma WithinTwentyFive(zone: Zone, now: int, day: int, hour: int)
    requires 0 <= hour <= 23 && hour != 2
    requires (day - 1) * DAY + hour * HOUR <= Local(zone, now)
    ensures Instant(zone, day, hour, SlotAt(day, hour)) <= now + 25 * HOUR
  {
    assert (day - 1) * DAY == day * DAY - DAY;
  }

  // ----- the hour that is skipped and doubled

  /** At 01:00 UTC of the day the clock is put forward, so its 02:00 is skipped. */
  predicate SpringsForward(zone: Zone, day: int) {
    !zone(day - 1) && zone(day)
  }

  /** At 01:00 UTC of the day the clock is put back, so 02:00 is shown again. */
  predicate FallsBack(zone: Zone, day: int) {
    zone(day - 1) && !zone(day)
  }

  /** The local day whose hour 2 is aimed at. */
  function TargetDay(zone: Zone, now: int): int {
    var today := Local(zone, now) / DAY;
    if today * DAY + 2 * HOUR <= Local(zone, now) then today + 1 else today
  }

  /** The hour of UTC before the clock is put back, when the second 02:00 is still to come. */
  predicate BeforeSecondTwo(zone: Zone, now: int) {
    FallsBack(zone, now / DAY) && now % DAY < HOUR
  }

  lemma SlotIs(t: int, day: int)
    ensures day * DAY <= t < day * DAY + HOUR ==> SlotOf(t) == day - 1
    ensures day * DAY + HOUR <= t <= day * DAY + 2 * HOUR ==> SlotOf(t) == day
  {
    if day * DAY <= t < day * DAY + HOUR {
      SlotUnique(t, day - 1);
    } else if day * DAY + HOUR <= t <= day * DAY + 2 * HOUR {
      SlotUnique(t, day);
    }
  }

  /** The instants at which the clock shows 02:00 of a day. */
  lemma ShowsTwo(zone: Zone, t: int, day: int)
    ensures
      Local(zone, t) == day * DAY + 2 * HOUR <==>
      || (t == Instant(zone, day, 2, day - 1) && !SpringsForward(zone, day))
      || (t == Instant(zone, day, 2, day) && FallsBack(zone, day))
  {
    SlotIs(t, day);
  }

  /** The first of them is before or after `now` on the wall as it is in time. */
  lemma FirstTwoOrder(zone: Zone, now: int, day: int)
    requires !SpringsForward(zone, day)
    ensures now < Instant(zone, day, 2, day - 1) <==> Local(zone, now) < day * DAY + 2 * HOUR
  {
    var slot := SlotOf(now);
    SlotBounds(now);
    if slot < day - 1 {
      assert (slot + 1) * DAY <= (day - 1) * DAY == day * DAY - DAY;
    } else if slot > day {
      assert (day + 1) * DAY <= slot * DAY;
    }
  }

  /** A reading is doubled only between 02:00 and 03:00. */
  lemma FoldIsDoubled(zone: Zone, now: int)
    requires Fold(zone, now)
    ensures 2 * HOUR <= Local(zone, now) % DAY < 3 * HOUR
  {
    var slot := SlotOf(now);
    SlotBounds(now);
    if now >= slot * DAY + 2 * HOUR {
      SlotUnique(now - HOUR, slot);
    }
    DayUnique(Local(zone, now), slot, Local(zone, now) - slot * DAY);
  }

  lemma WallOfTwo(zone: Zone, day: int)
    ensures WallOffset(zone, day * DAY + 2 * HOUR, false) == Offset(zone, day - 1)
  {
    DayUnique(day * DAY, day, 0);
  }

  lemma ComputesTwo(zone: Zone, now: int)
    ensures
      var day := TargetDay(zone, now);
      && NextParisTime(zone, now, 2) == Instant(zone, day, 2, day - 1)
      && day * DAY - DAY + 2 * HOUR <= Local(zone, now) < day * DAY + 2 * HOUR
  {
    hide WallOffset, Local, Offset, Fold;
    var local := Local(zone, now);
    var today, day := local / DAY, TargetDay(zone, now);
    assert today * DAY <= local < today * DAY + DAY;
    if Fold(zone, now) {
      FoldIsDoubled(zone, now);
    }
    WallOfTwo(zone, day);
    assert (today + 1) * DAY == today * DAY + DAY;
  }

  /** A 02:00 between `now` and the result is the second one of a day the clock is put back. */
  lemma NoTwoBetween(zone: Zone, now: int, t: int)
    requires !SpringsForward(zone, TargetDay(zone, now)) && !BeforeSecondTwo(zone, now)
    requires now < t < NextParisTime(zone, now, 2)
    ensures !AtHour(zone, t, 2)
  {
    if AtHour(zone, t, 2) {
      hide Local, NextParisTime, TargetDay;
      var day, d := TargetDay(zone, now), Local(zone, t) / DAY;
      ComputesTwo(zone, now);
      assert Local(zone, t) == d * DAY + 2 * HOUR;
      ShowsTwo(zone, t, d);
      BetweenBounds(zone, now, t, day, d);
      if d == day - 1 {
        if !SpringsForward(zone, d) {
          FirstTwoOrder(zone, now, d);
        }
        DayUnique(now, d, now - d * DAY);
      }
    }
  }

  lemma BetweenBounds(zone: Zone, now: int, t: int, day: int, d: int)
    requires day * DAY - DAY + 2 * HOUR <= Local(zone, now)
    requires now < t < Instant(zone, day, 2, day - 1) && d * DAY <= t <= d * DAY + HOUR
    ensures d == day - 1 || d == day
    ensures day * DAY - DAY <= now
  {
  }

  /**
   For hour 2 the result is the next 02:00 exactly when the day aimed at does
   not skip that hour and `now` is not in the hour before a clock is put back.
   */
  lemma TwoIsNextIff(zone: Zone, now: int)
    ensures
      IsNext(zone, now, 2, NextParisTime(zone, now, 2)) <==>
      !SpringsForward(zone, TargetDay(zone, now)) && !BeforeSecondTwo(zone, now)
  {
    var day, r := TargetDay(zone, now), NextParisTime(zone, now, 2);
    ComputesTwo(zone, now);
    if SpringsForward(zone, day) {
      SkippedTwo(zone, day);
    } else if BeforeSecondTwo(zone, now) {
      SecondTwoPassedOver(zone, now);
    } else {
      hide Local, NextParisTime, TargetDay, BeforeSecondTwo;
      FirstTwoOrder(zone, now, day);
      ShowsTwo(zone, r, day);
      DayUnique(Local(zone, r), day, 2 * HOUR);
      forall t | now < t < r ensures !AtHour(zone, t, 2) {
        NoTwoBetween(zone, now, t);
      }
      TwoWithinTwentyFive(zone, now, day);
    }
  }

  lemma TwoWithinTwentyFive(zone: Zone, now: int, day: int)
    requires day * DAY - DAY + 2 * HOUR <= Local(zone, now)
    ensures Instant(zone, day, 2, day - 1) <= now + 25 * HOUR
  {
  }

  lemma SkippedTwo(zone: Zone, day: int)
    requires SpringsForward(zone, day)
    ensures !AtHour(zone, Instant(zone, day, 2, day - 1), 2)
  {
    var r := Instant(zone, day, 2, day - 1);
    SlotIs(r, day);
    DayUnique(Local(zone, r), day, 3 * HOUR);
  }

  lemma SecondTwoPassedOver(zone: Zone, now: int)
    requires BeforeSecondTwo(zone, now)
    ensures
      var t := now / DAY * DAY + HOUR;
      now < t < NextParisTime(zone, now, 2) && AtHour(zone, t, 2)
  {
    var day := now / DAY;
    var t := day * DAY + HOUR;
    assert now == day * DAY + now % DAY;
    SlotIs(now, day);
    DayUnique(Local(zone, now), day, 2 * HOUR + now % DAY);
    ComputesTwo(zone, now);
    assert (day + 1) * DAY == day * DAY + DAY;
    ShowsTwo(zone, t, day);
    DayUnique(Local(zone, t), day, 2 * HOUR);
  }

  ghost predicate AlwaysNext(zone: Zone, hour: int) {
    forall now :: IsNext(zone, now, hour, NextParisTime(zone, now, hour))
  }

  ghost predicate NeverChanges(zone: Zone) {
    forall day :: !SpringsForward(zone, day) && !FallsBack(zone, day)
  }

  /** So it is right at every moment exactly in zones that never change their clocks. */
  lemma TwoAlwaysNextIff(zone: Zone)
    ensures AlwaysNext(zone, 2) <==> NeverChanges(zone)
  {
    hide IsNext, NextParisTime, SpringsForward, FallsBack;
    if NeverChanges(zone) {
      forall now ensures IsNext(zone, now, 2, NextParisTime(zone, now, 2)) {
        RightWithoutChanges(zone, now);
      }
    } else {
      var day :| SpringsForward(zone, day) || FallsBack(zone, day);
      WrongAtChange(zone, day);
    }
  }

  lemma RightWithoutChanges(zone: Zone, now: int)
    requires NeverChanges(zone)
    ensures IsNext(zone, now, 2, NextParisTime(zone, now, 2))
  {
    hide IsNext, NextParisTime, TargetDay, SpringsForward, FallsBack;
    TwoIsNextIff(zone, now);
  }

  lemma WrongAtChange(zone: Zone, day: int)
    requires SpringsForward(zone, day) || FallsBack(zone, day)
    ensures !IsNext(zone, day * DAY, 2, NextParisTime(zone, day * DAY, 2))
  {
    hide IsNext, NextParisTime, TargetDay;
    DayUnique(day * DAY, day, 0);
    if SpringsForward(zone, day) {
      TargetBeforeChange(zone, day);
    }
    TwoIsNextIff(zone, day * DAY);
  }

  lemma TargetBeforeChange(zone: Zone, day: int)
    requires SpringsForward(zone, day)
    ensures TargetDay(zone, day * DAY) == day
  {
    SlotIs(day * DAY, day);
    DayUnique(day * DAY + HOUR, day, HOUR);
  }
}
