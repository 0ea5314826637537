/** The loop that drives all collectors, and why its ticks are the ones the rollup results need. */
module Scheduler {
  import opened Levels
  import opened Options
  import opened Pyramid

  /** How far the next tick is from now, before any correction. */
  function Ahead(updateTime: real, now: real): real {
    updateTime + 1.0 - now
  }

  /** Late, or (only if the clock went back) early. */
  predicate Resets(updateTime: real, now: real) {
    Ahead(updateTime, now) < 0.0 || Ahead(updateTime, now) > 2.0
  }

  function NextTime(updateTime: real, now: real): real {
    if Resets(updateTime, now) then Ceil(now) as real else updateTime + 1.0
  }

  /** After a reset the loop does not sleep at all: the assignment stores the truth value of a comparison. */
  function SleepFor(updateTime: real, now: real): real {
    if Resets(updateTime, now) then 0.0 else Ahead(updateTime, now)
  }

  /** `usleep` takes whole microseconds. */
  function Slept(interval: real): real {
    (interval * 1000000.0).Floor as real / 1000000.0
  }

  lemma SleptAlmost(interval: real)
    ensures interval - 0.000001 < Slept(interval) <= interval
  {
    var micros := interval * 1000000.0;
    assert micros - 1.0 < micros.Floor as real <= micros;
  }

  function Missed(next: real, now: real): nat
    decreases if next < now then (now - next).Floor + 1 else 0
  {
    if next < now then
      Falls(now - next);
      1 + Missed(next + 1.0, now)
    else 0
  }

  class Stats {
    var updateTime: real
    /** The next time of level 0 of every collector. */
    var nextTime: real
    var nextQueueTime: real
    /** Extra ids handed out by `tickSample`. */
    var skipped: nat

    /** Up to the first sleep; `now` is the clock reading. */
    constructor (now: real)
      ensures updateTime == Ceil(now) as real && nextTime == updateTime && nextQueueTime == updateTime + 60.0
      ensures skipped == 0
    {
      updateTime := Ceil(now) as real;
      nextTime := Ceil(now) as real;
      nextQueueTime := Ceil(now) as real + 60.0;
      skipped := 0;
    }

    /** One extra id for every missed second. */
    method TickSamples(next: real, now: real)
      modifies this`skipped
      ensures skipped == old(skipped) + Missed(next, now)
    {
      var n := next;
      while n < now
        invariant skipped + Missed(n, now) == old(skipped) + Missed(next, now)
        decreases (now - n).Floor
      {
        Falls(now - n);
        skipped := skipped + 1;
        n := n + 1.0;
      }
    }

    /** One turn of the loop after the collectors have been updated; `later` is the reading before the queue check. */
    method Turn(now: real, later: real) returns (interval: real, write: bool)
      modifies this
      ensures updateTime == NextTime(old(updateTime), now) && nextTime == updateTime
      ensures interval == SleepFor(old(updateTime), now)
      ensures write <==> later >= old(nextQueueTime)
      ensures nextQueueTime == if write then now + 300.0 else old(nextQueueTime)
      ensures skipped == old(skipped)
    {
      var next := updateTime + 1.0;
      interval := next - now;
      CeilBounds(now);
      if interval < 0.0 {
        interval := if Ceil(now) as real < now then 1.0 else 0.0;
        next := Ceil(now) as real;
      } else if interval > 2.0 {
        TickSamples(next, now);
        interval := if Ceil(now) as real < now then 1.0 else 0.0;
        next := Ceil(now) as real;
      }
      updateTime := next;
      write := later >= nextQueueTime;
      if write {
        nextQueueTime := now + 300.0;
      }
      nextTime := updateTime;
    }
  }

  lemma Falls(r: real)
    requires r > 0.0
    ensures (r - 1.0).Floor < r.Floor && r.Floor >= 0
  {
  }

  // ------------------------------------------------------------------
  // One turn.
  // ------------------------------------------------------------------

  /** At the head of the loop: the tick's time is a whole second, less than one second ahead of the clock. */
  ghost predicate Head(updateTime: real, clock: real) {
    Integral(updateTime) && updateTime < clock + 1.0
  }

  /** Time advances, by at least a whole second, exactly if the clock has not gone back below the last second. */
  lemma AdvancesUnlessClockGoesBack(updateTime: real, now: real)
    requires Integral(updateTime)
    ensures Integral(NextTime(updateTime, now)) && NextTime(updateTime, now) >= now
    ensures NextTime(updateTime, now) > updateTime <==> now >= updateTime - 1.0
    ensures now >= updateTime - 1.0 ==> NextTime(updateTime, now) >= updateTime + 1.0
    ensures Ahead(updateTime, now) > 2.0 <==> now < updateTime - 1.0
  {
    CeilBounds(now);
    IntegralSum(updateTime, 1.0);
  }

  /**
   * On time, the next tick is one second after this one and the loop sleeps exactly until then; else the next tick is
   * the first whole second that is not past, and the loop does not sleep.
   */
  lemma NextTickExactly(updateTime: real, now: real)
    requires Integral(updateTime)
    ensures var next, interval := NextTime(updateTime, now), SleepFor(updateTime, now);
            if updateTime - 1.0 <= now <= updateTime + 1.0
            then next == updateTime + 1.0 && now + interval == next
            else Integral(next) && now <= next < now + 1.0 && interval == 0.0
  {
    CeilBounds(now);
  }

  /** The number of whole seconds that have begun: as many as it takes to get from `next` to now. */
  lemma {:induction false} MissedExactly(next: real, now: real)
    ensures next >= now ==> Missed(next, now) == 0
    ensures next < now ==> next + Missed(next, now) as real - 1.0 < now <= next + Missed(next, now) as real
    decreases if next < now then (now - next).Floor + 1 else 0
  {
    if next < now {
      Falls(now - next);
      MissedExactly(next + 1.0, now);
    }
  }

  /** With a clock that does not go back, the early branch is never taken. */
  lemma TurnKeepsHead(updateTime: real, clock: real, now: real, wake: real)
    requires Head(updateTime, clock) && clock <= now && wake >= now + Slept(SleepFor(updateTime, now))
    ensures Head(NextTime(updateTime, now), wake)
    ensures NextTime(updateTime, now) >= updateTime + 1.0 && NextTime(updateTime, now) >= now
    ensures Ahead(updateTime, now) <= 2.0
  {
    AdvancesUnlessClockGoesBack(updateTime, now);
    SleptAlmost(SleepFor(updateTime, now));
    CeilBounds(now);
  }

  lemma FirstHead(now: real, wake: real)
    requires wake >= now + Slept(Ceil(now) as real - now)
    ensures Head(Ceil(now) as real, wake)
  {
    CeilBounds(now);
    SleptAlmost(Ceil(now) as real - now);
  }

  // ------------------------------------------------------------------
  // Whole runs.
  // ------------------------------------------------------------------

  /**
   * One turn: what was measured, the clock readings of the history pass, the one after it, and the one at
   * which the loop resumes.
   */
  datatype Cycle<V> = Cycle(reading: Option<V>, nows: seq<real>, now: real, wake: real)

  /** The clock does not go back, and a sleep lasts at least as long as asked. */
  ghost predicate Timely<V>(updateTime: real, clock: real, cycle: Cycle<V>) {
    && |cycle.nows| == LEVELS && (forall x | 1 <= x < LEVELS :: clock <= cycle.nows[x] <= cycle.now)
    && clock <= cycle.now && cycle.wake >= cycle.now + Slept(SleepFor(updateTime, cycle.now))
  }

  ghost predicate AllTimely<V>(updateTime: real, clock: real, cycles: seq<Cycle<V>>)
    decreases |cycles|
  {
    cycles != [] ==>
      && Timely(updateTime, clock, cycles[0])
      && AllTimely(NextTime(updateTime, cycles[0].now), cycles[0].wake, cycles[1..])
  }

  /** The tick times of a run. */
  function Times<V>(updateTime: real, cycles: seq<Cycle<V>>): seq<real>
    decreases |cycles|
  {
    if cycles == [] then [] else [updateTime] + Times(NextTime(updateTime, cycles[0].now), cycles[1..])
  }

  /** Over every run, tick times are whole seconds and each is at least one second after the one before. */
  lemma {:induction false} TimesIncrease<V>(updateTime: real, clock: real, cycles: seq<Cycle<V>>)
    requires Head(updateTime, clock) && AllTimely(updateTime, clock, cycles)
    ensures var times := Times(updateTime, cycles);
            && |times| == |cycles| && (times != [] ==> times[0] == updateTime)
            && (forall i | 0 <= i < |times| :: Integral(times[i]))
            && (forall i | 0 <= i < |times| - 1 :: times[i + 1] >= times[i] + 1.0)
    decreases |cycles|
  {
    if cycles != [] {
      var now := cycles[0].now;
      TurnKeepsHead(updateTime, clock, now, cycles[0].wake);
      TimesIncrease(NextTime(updateTime, now), cycles[0].wake, cycles[1..]);
      var rest := Times(NextTime(updateTime, now), cycles[1..]);
      var times := Times(updateTime, cycles);
      assert times == [updateTime] + rest;
      forall i | 0 <= i < |times| - 1 ensures times[i + 1] >= times[i] + 1.0 {
        if i > 0 {
          assert times[i] == rest[i - 1] && times[i + 1] == rest[i];
        }
      }
    }
  }

  /** The latest clock reading of a history pass, from level x on. */
  function Latest(nows: seq<real>, x: nat): (latest: real)
    requires 1 <= x < |nows|
    ensures forall y | x <= y < |nows| :: nows[y] <= latest
    ensures exists y :: x <= y < |nows| && nows[y] == latest
    decreases |nows| - x
  {
    if x == |nows| - 1 then nows[x]
    else
      var rest := Latest(nows, x + 1);
      if nows[x] >= rest then nows[x] else rest
  }

  /** The first whole second by which the history pass of a turn has read the clock for the last time. */
  function CellOf<V>(cycle: Cycle<V>): real
    requires |cycle.nows| == LEVELS
  {
    Ceil(Latest(cycle.nows, 1)) as real
  }

  /**
   * The run keeps to its schedule: each history pass ends at most 593 seconds after the tick before, and in none does
   * a level overtake its source. Turns may be late, ticks early, and passes may run into later seconds.
   */
  ghost predicate OnSchedule<V>(entries: seq<Entry>, updateTime: real, anchor: real, cycles: seq<Cycle<V>>)
    decreases |cycles|
  {
    cycles != [] ==>
      && |cycles[0].nows| == |entries| == LEVELS && Clear(entries, updateTime, cycles[0].nows)
      && CellOf(cycles[0]) <= anchor + 593.0
      && OnSchedule(TickedEntries(entries, updateTime, cycles[0].nows), NextTime(updateTime, cycles[0].now),
                    updateTime, cycles[1..])
  }

  /** The ticks of such a run. */
  function Ticks<V>(updateTime: real, cycles: seq<Cycle<V>>): seq<TickInput<V>>
    requires forall i | 0 <= i < |cycles| :: |cycles[i].nows| == LEVELS
    decreases |cycles|
  {
    if cycles == [] then []
    else [TickInput(updateTime, cycles[0].reading, cycles[0].nows, CellOf(cycles[0]))]
         + Ticks(NextTime(updateTime, cycles[0].now), cycles[1..])
  }

  /** Where the pass of a turn ends: not before its tick, and not after the next one. */
  lemma CellIsBetween<V>(updateTime: real, clock: real, cycle: Cycle<V>)
    requires Head(updateTime, clock) && Timely(updateTime, clock, cycle)
    ensures Integral(CellOf(cycle)) && updateTime <= CellOf(cycle) <= NextTime(updateTime, cycle.now)
  {
    var latest := Latest(cycle.nows, 1);
    CeilBounds(latest);
    AdvancesUnlessClockGoesBack(updateTime, cycle.now);
    CeilIsLeast(latest, NextTime(updateTime, cycle.now));
    if CellOf(cycle) < updateTime {
      IntegralGap(CellOf(cycle), updateTime);
    }
  }

  lemma ReadingsAreInTime<V>(updateTime: real, clock: real, cycle: Cycle<V>)
    requires Head(updateTime, clock) && Timely(updateTime, clock, cycle)
    ensures forall x | 1 <= x < LEVELS :: InTime(cycle.nows[x], updateTime, CellOf(cycle))
  {
    CeilBounds(Latest(cycle.nows, 1));
  }

  lemma {:induction false} AllHaveReadings<V>(updateTime: real, clock: real, cycles: seq<Cycle<V>>)
    requires AllTimely(updateTime, clock, cycles)
    ensures forall i | 0 <= i < |cycles| :: |cycles[i].nows| == LEVELS
    decreases |cycles|
  {
    if cycles != [] {
      AllHaveReadings(NextTime(updateTime, cycles[0].now), cycles[0].wake, cycles[1..]);
      assert forall i | 1 <= i < |cycles| :: cycles[i] == cycles[1..][i - 1];
    }
  }

  /** A run that keeps to its schedule is one of those in which all rollups stay exact. */
  lemma {:induction false} ScheduledRunIsPunctual<V>(
    entries: seq<Entry>, updateTime: real, clock: real, cycles: seq<Cycle<V>>, anchor: real, seen: real)
    requires Head(updateTime, clock) && AllTimely(updateTime, clock, cycles)
    requires OnSchedule(entries, updateTime, anchor, cycles) && |entries| == LEVELS
    requires updateTime >= entries[0].time + 1.0 && updateTime >= seen && anchor <= updateTime
    requires forall i | 0 <= i < |cycles| :: |cycles[i].nows| == LEVELS
    ensures Timed(Ticks(updateTime, cycles)) && Punctual(entries, Ticks(updateTime, cycles), anchor, seen)
    decreases |cycles|
  {
    if cycles != [] {
      var cycle, rest, t := cycles[0], cycles[1..], NextTime(updateTime, cycles[0].now);
      TurnKeepsHead(updateTime, clock, cycle.now, cycle.wake);
      CellIsBetween(updateTime, clock, cycle);
      ReadingsAreInTime(updateTime, clock, cycle);
      var after := TickedEntries(entries, updateTime, cycle.nows);
      ScheduledRunIsPunctual(after, t, cycle.wake, rest, updateTime, CellOf(cycle));
      var ticks := Ticks(updateTime, cycles);
      assert ticks[1..] == Ticks(t, rest);
      assert PunctualTick(entries, ticks[0], anchor, seen);
    }
  }

  /**
   * From start-up on, and as long as the daemon keeps to its schedule, every rollup of every level is the mean
   * over everything its source level ever received. `booted` is the last clock reading of the loading phase.
   */
  lemma ScheduledRollupsAreExact<V>(
    arithmetic: Arithmetic<V>, levels: seq<Level<V>>, started: real, booted: real, now: real, clock: real,
    cycles: seq<Cycle<V>>)
    requires Poised(arithmetic, levels, started, Ceil(booted) as real)
    requires levels[0].entry.time <= 0.0 && 1.0 <= started <= booted <= now
    requires clock >= now + Slept(Ceil(now) as real - now)
    requires AllTimely(Ceil(now) as real, clock, cycles)
    requires OnSchedule(Entries(levels), Ceil(now) as real, started, cycles)
    ensures forall i | 0 <= i < |cycles| :: |cycles[i].nows| == LEVELS
    ensures Timed(Ticks(Ceil(now) as real, cycles))
    ensures AllExact(arithmetic, Run(arithmetic, levels, Ticks(Ceil(now) as real, cycles)),
                     LastCell(Ticks(Ceil(now) as real, cycles), Ceil(booted) as real))
  {
    FirstHead(now, clock);
    CeilBounds(now);
    CeilIsLeast(booted, Ceil(now) as real);
    AllHaveReadings(Ceil(now) as real, clock, cycles);
    ScheduledRunIsPunctual(Entries(levels), Ceil(now) as real, clock, cycles, started, Ceil(booted) as real);
    RunStaysExact(arithmetic, levels, Ticks(Ceil(now) as real, cycles), started, Ceil(booted) as real);
  }
}
