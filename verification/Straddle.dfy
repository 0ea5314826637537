/** When a level overtakes its source: a history pass whose clock readings lie on both sides of its tick's time. */
module Straddle {
  import opened Levels
  import opened Options
  import opened Pyramid

  // ------------------------------------------------------------------
  // Overtaking is what goes wrong.
  // ------------------------------------------------------------------

  /** A grid point is the next one or at least an interval behind it. */
  lemma FirstGridPoint(e: Entry, id: int)
    requires e.interval >= 1.0 && id > e.sampleID
    ensures GridTime(e, id) == e.nextTime || GridTime(e, id) >= e.nextTime + e.interval
  {
    var k := id - e.sampleID - 1;
    if k == 0 {
      assert e.interval * k as real == 0.0;
    } else {
      assert e.interval * k as real == e.interval + e.interval * (k - 1) as real;
      assert e.interval * (k - 1) as real >= 0.0;
    }
  }

  lemma {:induction false} AdvancedGrid(e: Entry, now: real, id: int)
    requires e.interval >= 1.0
    ensures GridTime(Advanced(e, now), id) == GridTime(e, id)
    decreases Distance(e, now)
  {
    if e.nextTime < now {
      NextIsCloser(e, now);
      NextGrid(e, id);
      AdvancedGrid(Next(e), now, id);
    }
  }

  /** A grid point that the pass has gone past has its rollup. */
  lemma GridPointIsMade<V>(
    arithmetic: Arithmetic<V>, e: Entry, source: seq<Sample<V>>, id: int, now: real, earliest: real)
    returns (s: Sample<V>)
    requires e.interval >= 1.0 && id > e.sampleID && earliest <= GridTime(e, id) < now
    ensures s in Rollups(arithmetic, e, source, now, earliest) && s.sampleID == id && s.time == GridTime(e, id)
  {
    AdvancedFacts(e, now);
    AdvancedGrid(e, now, id);
    if id > Advanced(e, now).sampleID {
      FirstGridPoint(Advanced(e, now), id);
    }
    RollupsComplete(arithmetic, e, source, now, earliest, id);
    s :| s in Rollups(arithmetic, e, source, now, earliest) && s.sampleID == id;
    RollupsFormPass(arithmetic, e, source, now, earliest);
  }

  /**
   * Nothing that is due and recent is left out: a level whose time has come is rolled up for every point of its grid
   * up to the clock reading that is at most 600 intervals old.
   */
  lemma DueIsRolledUp<V>(
    arithmetic: Arithmetic<V>, levels: seq<Level<V>>, x: nat, t: real, reading: Option<V>, nows: seq<real>, id: int)
    requires AllOrdered(levels) && |nows| == LEVELS && 1 <= x < LEVELS && t >= levels[x].entry.nextTime
    requires id > levels[x].entry.sampleID
    requires nows[x] - 600.0 * levels[x].entry.interval <= GridTime(levels[x].entry, id) < nows[x]
    ensures |Tick(arithmetic, levels, t, reading, nows)| == LEVELS
    ensures exists s ::
      && s in Tick(arithmetic, levels, t, reading, nows)[x].log
      && s.sampleID == id && s.time == GridTime(levels[x].entry, id)
  {
    TickEach(arithmetic, levels, t, reading, nows, x);
    assert Ordered(levels[x]);
    var e, source := levels[x].entry, Tick(arithmetic, levels, t, reading, nows)[levels[x].entry.historyIndex].deque;
    var earliest := Earliest(nows[x], e.interval);
    var s := GridPointIsMade(arithmetic, e, source, id, nows[x], earliest);
    ReversedMembers(Rollups(arithmetic, e, source, nows[x], earliest), s);
    PassedGains(arithmetic, levels[x], source, t, nows[x]);
  }

  ghost predicate AllBefore<V>(samples: seq<Sample<V>>, time: real) {
    forall s | s in samples :: s.time < time
  }

  /** One level and its source, which has had its turn. */
  lemma ClosedExactly<V>(
    arithmetic: Arithmetic<V>, level: Level<V>, source: Level<V>, anchor: real, t: real, now: real, cell: real)
    requires level.entry.historyIndex > 0 && level.entry.interval >= 1.0 && Integral(level.entry.interval)
    requires Standing(level.entry, anchor, cell) && Prompt(anchor, t, cell) && InTime(now, t, cell)
    requires source.entry.nextTime > t - 1.0
    ensures AllBefore(GainedBy(arithmetic, level, source.deque, t, now), source.entry.nextTime)
      <==> !Passes(level.entry, t, now, source.entry.nextTime)
  {
    var e, earliest, limit := level.entry, Earliest(now, level.entry.interval), source.entry.nextTime;
    if Passes(e, t, now, limit) {
      var id :| id > e.sampleID && limit <= GridTime(e, id) < now;
      var s := GridPointIsMade(arithmetic, e, source.deque, id, now, earliest);
      ReversedMembers(Rollups(arithmetic, e, source.deque, now, earliest), s);
    } else {
      forall s | s in GainedBy(arithmetic, level, source.deque, t, now) ensures s.time < limit {
        PassedMade(arithmetic, level, source.deque, t, now, s);
        GridIsIntegral(e, s.sampleID);
        GainedIsClosed(arithmetic, e, source, t, now, cell, s);
      }
    }
  }

  /**
   * In every prompt tick, the new rollups of a level built from rollups lie before everything its source can still
   * receive, exactly unless the level overtakes its source.
   */
  lemma ClosedUnlessOvertaking<V>(
    arithmetic: Arithmetic<V>, levels: seq<Level<V>>, x: nat, t: real, reading: Option<V>, nows: seq<real>,
    anchor: real, seen: real, cell: real)
    requires Poised(arithmetic, levels, anchor, seen) && Prompt(anchor, t, cell) && t >= seen
    requires |nows| == LEVELS && forall y | 1 <= y < LEVELS :: InTime(nows[y], t, cell)
    requires 1 <= x < LEVELS && 0 < levels[x].entry.historyIndex
    ensures var after, h := Tick(arithmetic, levels, t, reading, nows), levels[x].entry.historyIndex;
            && levels[x].entry.interval >= 1.0 && h < |after|
            && (AllBefore(GainedBy(arithmetic, levels[x], after[h].deque, t, nows[x]), after[h].entry.nextTime)
                <==> !Overtakes(Entries(levels), x, t, nows))
  {
    var h := levels[x].entry.historyIndex;
    assert WellBased(levels, x) && Standing(levels[x].entry, anchor, seen);
    assert WellBased(levels, h) && Standing(levels[h].entry, anchor, seen);
    assert InTime(nows[x], t, cell) && InTime(nows[h], t, cell);
    var after := Tick(arithmetic, levels, t, reading, nows);
    TickEach(arithmetic, levels, t, reading, nows, h);
    PassedNext(arithmetic, levels[h], after[levels[h].entry.historyIndex].deque, anchor, t, nows[h], cell);
    ClosedExactly(arithmetic, levels[x], after[h], anchor, t, nows[x], cell);
  }

  // ------------------------------------------------------------------
  // Straddling is how a level overtakes its source, unless the pass is minutes late.
  // ------------------------------------------------------------------

  /**
   * The pass straddles its tick's time t at level x: the level is rolled up at t, but its source read the clock
   * too early for its own rollup of t.
   */
  ghost predicate Straddled(entries: seq<Entry>, x: nat, t: real, nows: seq<real>)
    requires |entries| == |nows| == LEVELS && 1 <= x < LEVELS
  {
    var h := entries[x].historyIndex;
    0 < h < x && RoundEntry(entries[h], t, nows[h]).nextTime == t && nows[x] > t && Passes(entries[x], t, nows[x], t)
  }

  /** What stands less than a second before t, stands at t or is a second past it. */
  lemma AtOrPast(next: real, t: real)
    requires Integral(next) && Integral(t) && next > t - 1.0
    ensures next == t || next >= t + 1.0
  {
    if next < t {
      IntegralGap(next, t);
    } else if next > t {
      IntegralGap(t, next);
    }
  }

  /**
   * If the pass ends within a second of its tick, or within the shortest interval of such levels of the tick
   * before, then to overtake is to be straddled.
   */
  lemma OvertakingIsStraddling<V>(
    arithmetic: Arithmetic<V>, levels: seq<Level<V>>, x: nat, t: real, nows: seq<real>, anchor: real, seen: real,
    cell: real)
    requires Poised(arithmetic, levels, anchor, seen) && Prompt(anchor, t, cell) && t >= seen
    requires cell <= t + 1.0 || cell <= anchor + 143.0
    requires |nows| == LEVELS && forall y | 1 <= y < LEVELS :: InTime(nows[y], t, cell)
    requires 1 <= x < LEVELS
    ensures Overtakes(Entries(levels), x, t, nows) <==> Straddled(Entries(levels), x, t, nows)
  {
    assert WellBased(levels, x) && Standing(levels[x].entry, anchor, seen);
    var e, h := levels[x].entry, levels[x].entry.historyIndex;
    if h > 0 && t >= e.nextTime {
      assert WellBased(levels, h) && Standing(levels[h].entry, anchor, seen);
      assert InTime(nows[x], t, cell) && InTime(nows[h], t, cell);
      PassedNext(arithmetic, levels[h], [], anchor, t, nows[h], cell);
      var next := RoundEntry(levels[h].entry, t, nows[h]).nextTime;
      AtOrPast(next, t);
      forall id | id > e.sampleID && GridTime(e, id) < nows[x] ensures GridTime(e, id) <= t {
        FirstGridPoint(e, id);
        GridIsIntegral(e, id);
        if GridTime(e, id) > t {
          IntegralGap(t, GridTime(e, id));
        }
      }
    }
  }

  /** A pass that reads the clock on one side of its tick's time only straddles nothing. */
  lemma OneSidedIsNotStraddled(entries: seq<Entry>, t: real, nows: seq<real>, x: nat)
    requires |entries| == |nows| == LEVELS && forall y | 1 <= y < LEVELS :: entries[y].interval >= 1.0
    requires (forall y | 1 <= y < LEVELS :: nows[y] <= t) || (forall y | 1 <= y < LEVELS :: nows[y] > t)
    requires 1 <= x < LEVELS
    ensures !Straddled(entries, x, t, nows)
  {
    var h := entries[x].historyIndex;
    if 0 < h < x && nows[x] > t {
      AdvancedFacts(entries[h], nows[h]);
    }
  }

  /** So whatever is due, such a pass is in order if it ends in time, whole seconds passing meanwhile or not. */
  lemma OneSidedIsOnTime<V>(
    arithmetic: Arithmetic<V>, levels: seq<Level<V>>, t: real, nows: seq<real>, anchor: real, seen: real, cell: real)
    requires Poised(arithmetic, levels, anchor, seen) && Prompt(anchor, t, cell) && t >= seen
    requires cell <= t + 1.0 || cell <= anchor + 143.0
    requires |nows| == LEVELS && forall y | 1 <= y < LEVELS :: InTime(nows[y], t, cell)
    requires (forall y | 1 <= y < LEVELS :: nows[y] <= t) || (forall y | 1 <= y < LEVELS :: nows[y] > t)
    ensures OnTime(Entries(levels), nows, t, cell)
  {
    forall x | 1 <= x < LEVELS
      ensures Entries(levels)[x].interval >= 1.0
    {
      assert WellBased(levels, x);
    }
    forall x | 1 <= x < LEVELS
      ensures !Overtakes(Entries(levels), x, t, nows)
    {
      OvertakingIsStraddling(arithmetic, levels, x, t, nows, anchor, seen, cell);
      OneSidedIsNotStraddled(Entries(levels), t, nows, x);
    }
  }

  // ------------------------------------------------------------------
  // What a straddled level misses.
  // ------------------------------------------------------------------

  /** The rollup at the level's next time is the first of the pass. */
  lemma FirstIsGained<V>(arithmetic: Arithmetic<V>, level: Level<V>, source: seq<Sample<V>>, t: real, now: real)
    requires level.entry.interval >= 1.0 && level.entry.nextTime <= t
    requires level.entry.nextTime < now <= level.entry.nextTime + HISTORY_SIZE as real * level.entry.interval
    ensures Rollup(arithmetic, Next(level.entry), source) in GainedBy(arithmetic, level, source, t, now)
  {
    var made := Rollups(arithmetic, level.entry, source, now, Earliest(now, level.entry.interval));
    NextIsCloser(level.entry, now);
    ReversedMembers(made, Rollup(arithmetic, Next(level.entry), source));
  }

  /** The first rollup of a pass comes last in the list of what was gained, and the others lie past its window. */
  lemma FirstIsOldest<V>(
    arithmetic: Arithmetic<V>, e: Entry, source: seq<Sample<V>>, now: real, earliest: real, low: real)
    requires e.interval >= 1.0 && earliest <= e.nextTime < now && low <= e.nextTime
    ensures var r := Rollup(arithmetic, Next(e), source);
            Window(Reversed(Rollups(arithmetic, e, source, now, earliest)), low, e.nextTime) == [r]
  {
    var r, rest := Rollup(arithmetic, Next(e), source), Rollups(arithmetic, Next(e), source, now, earliest);
    NextIsCloser(e, now);
    RollupsFormPass(arithmetic, Next(e), source, now, earliest);
    ReversedCons(r, rest, []);
    forall i | 0 <= i < |Reversed(rest)| ensures !Inside(Reversed(rest)[i].time, low, e.nextTime) {
      ReversedMembers(rest, Reversed(rest)[i]);
    }
    WindowEmpty(Reversed(rest), low, e.nextTime);
    WindowSplit([r], Reversed(rest), low, e.nextTime);
    OneInWindow(r, low, e.nextTime);
    assert Reversed([r] + rest) + [] == Reversed([r] + rest) && Reversed(rest) + ([r] + []) == Reversed(rest) + [r];
  }

  lemma OneInWindow<V>(r: Sample<V>, low: real, high: real)
    requires Inside(r.time, low, high)
    ensures Window([r], low, high) == [r]
  {
    assert [r][..0] == [];
  }

  /** Two rounds of a level and its source, of which the source misses the first. */
  lemma LosesSample<V>(
    arithmetic: Arithmetic<V>, level: Level<V>, source: Level<V>, t: real, now: real,
    lower: seq<Sample<V>>, t': real, now': real) returns (s: Sample<V>, r: Sample<V>)
    requires level.entry.interval >= 1.0 && source.entry.interval >= 1.0 && Ordered(level) && Ordered(source)
    requires level.entry.historyIndex > 0 && level.entry.nextTime == t == source.entry.nextTime && t <= t'
    requires t < now <= t + HISTORY_SIZE as real * level.entry.interval
    requires t < now' <= t + HISTORY_SIZE as real * source.entry.interval
    ensures s == Rollup(arithmetic, Next(level.entry), source.deque)
    ensures s in Passed(arithmetic, level, source.deque, t, now).log
    ensures MissedIn(arithmetic, level.entry, t, s, r, source.log, Passed(arithmetic, source, lower, t', now').log)
  {
    s := Rollup(arithmetic, Next(level.entry), source.deque);
    FirstIsLogged(arithmetic, level, source.deque, t, now);
    r := FirstFallsInWindow(arithmetic, source, lower, t', now', t - level.entry.interval, t);
    RollupMisses(arithmetic, level.entry, t, s, r, source.deque, source.log,
                 Passed(arithmetic, source, lower, t', now').log);
  }

  lemma RollupMisses<V>(
    arithmetic: Arithmetic<V>, e: Entry, t: real, s: Sample<V>, r: Sample<V>, deque: seq<Sample<V>>,
    before: seq<Sample<V>>, log: seq<Sample<V>>)
    requires e.historyIndex > 0 && e.nextTime == t == r.time && s == Rollup(arithmetic, Next(e), deque)
    requires Window(log, t - e.interval, t) == [r] + Window(before, t - e.interval, t)
    ensures MissedIn(arithmetic, e, t, s, r, before, log)
  {
  }

  lemma FirstFallsInWindow<V>(
    arithmetic: Arithmetic<V>, source: Level<V>, lower: seq<Sample<V>>, t': real, now': real, low: real, t: real)
    returns (r: Sample<V>)
    requires source.entry.interval >= 1.0 && Ordered(source) && source.entry.nextTime == t && t <= t' && low <= t
    requires t < now' <= t + HISTORY_SIZE as real * source.entry.interval
    ensures r.time == t
    ensures Window(Passed(arithmetic, source, lower, t', now').log, low, t) == [r] + Window(source.log, low, t)
  {
    r := Rollup(arithmetic, Next(source.entry), lower);
    PassedGains(arithmetic, source, lower, t', now');
    FirstIsOldest(arithmetic, source.entry, lower, now', Earliest(now', source.entry.interval), low);
    WindowSplit(source.log, GainedBy(arithmetic, source, lower, t', now'), low, t);
  }

  /**
   * The rollup s of time t was made when its source had the log `before`; r came later and is all that its window
   * has gained. The rollup is still what its window holds exactly if it is not empty and r leaves the mean alone.
   */
  ghost predicate MissedIn<V>(
    arithmetic: Arithmetic<V>, e: Entry, t: real, s: Sample<V>, r: Sample<V>, before: seq<Sample<V>>,
    log: seq<Sample<V>>)
  {
    var window := Window(before, t - e.interval, t);
    && s.time == t == r.time && Window(log, t - e.interval, t) == [r] + window
    && (Exact(arithmetic, e, s, log) <==> !s.empty && s.values == Mean(arithmetic, [r] + window))
  }

  /**
   * What a straddling pass does: the level is rolled up at t without its source's sample of t, which comes with a
   * later tick, inside the window of the finished rollup.
   */
  lemma StraddlingTickLosesSample<V>(
    arithmetic: Arithmetic<V>, levels: seq<Level<V>>, x: nat, h: nat, t: real, reading: Option<V>, nows: seq<real>,
    t': real, reading': Option<V>, nows': seq<real>)
    returns (first: seq<Level<V>>, second: seq<Level<V>>, s: Sample<V>, r: Sample<V>)
    requires AllOrdered(levels) && 1 <= h < x < LEVELS && levels[x].entry.historyIndex == h
    requires |nows| == |nows'| == LEVELS && t >= levels[0].entry.time + 1.0 && t' >= t + 1.0
    requires levels[x].entry.nextTime == t == levels[h].entry.nextTime
    requires nows[h] <= t < nows[x] <= t + HISTORY_SIZE as real * levels[x].entry.interval
    requires t < nows'[h] <= t + HISTORY_SIZE as real * levels[h].entry.interval
    ensures first == Tick(arithmetic, levels, t, reading, nows) && AllOrdered(first)
    ensures second == Tick(arithmetic, first, t', reading', nows') && AllOrdered(second)
    ensures s == Rollup(arithmetic, Next(levels[x].entry), levels[h].deque)
    ensures s in first[x].log && s in second[x].log && first[h] == levels[h]
    ensures MissedIn(arithmetic, levels[x].entry, t, s, r, levels[h].log, second[h].log)
  {
    first := StraddlingTick(arithmetic, levels, x, h, t, reading, nows);
    var lower;
    second, lower := LaterTick(arithmetic, first, x, h, t', reading', nows');
    s, r := LosesSample(arithmetic, levels[x], first[h], t, nows[x], lower, t', nows'[h]);
  }

  /** The source is not past its time and stays put, and the level goes ahead with what the source has. */
  lemma StraddlingTick<V>(
    arithmetic: Arithmetic<V>, levels: seq<Level<V>>, x: nat, h: nat, t: real, reading: Option<V>, nows: seq<real>)
    returns (first: seq<Level<V>>)
    requires AllOrdered(levels) && 1 <= h < x < LEVELS && levels[x].entry.historyIndex == h && |nows| == LEVELS
    requires t >= levels[0].entry.time + 1.0 && nows[h] <= t == levels[h].entry.nextTime
    ensures first == Tick(arithmetic, levels, t, reading, nows) && AllOrdered(first) && first[0].entry.time == t
    ensures levels[x].entry.interval >= 1.0 && levels[h].entry.interval >= 1.0 && first[h] == levels[h]
    ensures Ordered(levels[x]) && Ordered(first[h])
    ensures first[x] == Passed(arithmetic, levels[x], levels[h].deque, t, nows[x])
  {
    first := Tick(arithmetic, levels, t, reading, nows);
    TickStaysOrdered(arithmetic, levels, t, reading, nows);
    TickEach(arithmetic, levels, t, reading, nows, x);
    TickEach(arithmetic, levels, t, reading, nows, h);
    StaysPut(arithmetic, levels[h], first[levels[h].entry.historyIndex].deque, t, nows[h]);
  }

  lemma LaterTick<V>(
    arithmetic: Arithmetic<V>, first: seq<Level<V>>, x: nat, h: nat, t: real, reading: Option<V>, nows: seq<real>)
    returns (second: seq<Level<V>>, lower: seq<Sample<V>>)
    requires AllOrdered(first) && 1 <= h < LEVELS && 1 <= x < LEVELS && |nows| == LEVELS
    requires t >= first[0].entry.time + 1.0
    ensures second == Tick(arithmetic, first, t, reading, nows) && AllOrdered(second)
    ensures first[h].entry.interval >= 1.0 && second[h] == Passed(arithmetic, first[h], lower, t, nows[h])
    ensures forall s | s in first[x].log :: s in second[x].log
  {
    second := Tick(arithmetic, first, t, reading, nows);
    TickStaysOrdered(arithmetic, first, t, reading, nows);
    TickEach(arithmetic, first, t, reading, nows, x);
    TickEach(arithmetic, first, t, reading, nows, h);
    lower := second[first[h].entry.historyIndex].deque;
    assert Ordered(first[x]);
    PassedGains(arithmetic, first[x], second[first[x].entry.historyIndex].deque, t, nows[x]);
  }

  lemma StaysPut<V>(arithmetic: Arithmetic<V>, level: Level<V>, source: seq<Sample<V>>, live: real, now: real)
    requires level.entry.interval >= 1.0 && now <= level.entry.nextTime
    ensures Passed(arithmetic, level, source, live, now) == level
  {
  }

  lemma FirstIsLogged<V>(arithmetic: Arithmetic<V>, level: Level<V>, source: seq<Sample<V>>, t: real, now: real)
    requires level.entry.interval >= 1.0 && Ordered(level) && level.entry.nextTime <= t
    requires level.entry.nextTime < now <= level.entry.nextTime + HISTORY_SIZE as real * level.entry.interval
    ensures Rollup(arithmetic, Next(level.entry), source) in Passed(arithmetic, level, source, t, now).log
  {
    FirstIsGained(arithmetic, level, source, t, now);
    PassedGains(arithmetic, level, source, t, now);
  }
}
