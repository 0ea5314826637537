/** All eight levels of one series of samples, and what a tick does to them. */
module Pyramid {
  import opened Levels
  import opened Options

  /** `log` is everything the level has ever received, newest first; its first `made` samples since start-up. */
  datatype Level<V> = Level(entry: Entry, deque: seq<Sample<V>>, log: seq<Sample<V>>, made: nat)

  function Receive<V>(level: Level<V>, s: Sample<V>): Level<V> {
    level.(deque := Push(level.deque, s), log := [s] + level.log, made := level.made + 1)
  }

  /** One round of the catch-up loop. */
  function Round<V>(arithmetic: Arithmetic<V>, level: Level<V>, source: seq<Sample<V>>, earliest: real): Level<V> {
    var n := Next(level.entry);
    var moved := level.(entry := n);
    if n.time < earliest then moved else Receive(moved, Rollup(arithmetic, n, source))
  }

  function CaughtUp<V>(
    arithmetic: Arithmetic<V>, level: Level<V>, source: seq<Sample<V>>, now: real, earliest: real): Level<V>
    requires level.entry.interval >= 1.0
    decreases Distance(level.entry, now)
  {
    if level.entry.nextTime < now then
      NextIsCloser(level.entry, now);
      CaughtUp(arithmetic, Round(arithmetic, level, source, earliest), source, now, earliest)
    else level
  }

  predicate Integral(r: real) {
    r == r.Floor as real
  }

  /**
   * Each level has a whole number of seconds as its interval and is built from a lower one, whose 600 samples
   * reach back at least 594 seconds beyond the level's own window. Levels built from rollups have long intervals.
   */
  ghost predicate Shaped<V>(levels: seq<Level<V>>) {
    |levels| == LEVELS && levels[0].entry.interval == 1.0 && forall x | 1 <= x < LEVELS :: WellBased(levels, x)
  }

  ghost predicate WellBased<V>(levels: seq<Level<V>>, x: nat)
    requires 1 <= x < |levels|
  {
    var e := levels[x].entry;
    && Integral(e.interval) && e.interval >= 1.0 && e.historyIndex < x
    && levels[e.historyIndex].entry.interval * HISTORY_SIZE as real - e.interval >= 594.0
    && (e.historyIndex > 0 ==> e.interval >= 144.0)
  }

  /** The configuration of `initShared` has that shape. */
  lemma ConfiguredIsShaped<V>(levels: seq<Level<V>>)
    requires |levels| == LEVELS
    requires forall x | 0 <= x < LEVELS ::
      levels[x].entry.interval == Intervals()[x] && levels[x].entry.historyIndex == Sources()[x]
    ensures Shaped(levels)
  {
  }

  /**
   * The 600 samples of the levels cover an hour, a day, a week, 30, 90 and 180 days and a year, as their tables are
   * called, and no level is built from samples coarser than its own.
   */
  lemma ConfiguredSpans()
    ensures forall x | 0 <= x < LEVELS ::
      HISTORY_SIZE as real * InitialEntry(x).interval
        == [600.0, 3600.0, 86400.0, 604800.0, 2592000.0, 7776000.0, 15552000.0, 31536000.0][x]
    ensures forall x | 1 <= x < LEVELS ::
      && InitialEntry(x).historyIndex < x
      && InitialEntry(InitialEntry(x).historyIndex).interval < InitialEntry(x).interval
  {
  }

  function Earliest(now: real, interval: real): real {
    now - HISTORY_SIZE as real * interval
  }

  /** One level of `updateHistory`: it is due when the live time has reached its next time. */
  function Passed<V>(
    arithmetic: Arithmetic<V>, level: Level<V>, source: seq<Sample<V>>, live: real, now: real): Level<V>
    requires level.entry.interval >= 1.0
  {
    if live >= level.entry.nextTime
    then CaughtUp(arithmetic, level, source, now, Earliest(now, level.entry.interval))
    else level
  }

  function PassLevel<V>(arithmetic: Arithmetic<V>, levels: seq<Level<V>>, x: nat, now: real): (after: seq<Level<V>>)
    requires Shaped(levels) && 1 <= x < LEVELS
    ensures |after| == LEVELS
  {
    assert WellBased(levels, x);
    levels[x := Passed(arithmetic, levels[x], levels[levels[x].entry.historyIndex].deque, levels[0].entry.time, now)]
  }

  lemma {:induction false} CaughtUpEntry<V>(
    arithmetic: Arithmetic<V>, level: Level<V>, source: seq<Sample<V>>, now: real, earliest: real)
    requires level.entry.interval >= 1.0
    ensures CaughtUp(arithmetic, level, source, now, earliest).entry == Advanced(level.entry, now)
    decreases Distance(level.entry, now)
  {
    if level.entry.nextTime < now {
      NextIsCloser(level.entry, now);
      CaughtUpEntry(arithmetic, Round(arithmetic, level, source, earliest), source, now, earliest);
    }
  }

  lemma ReversedCons<T>(first: T, rest: seq<T>, tail: seq<T>)
    ensures Reversed([first] + rest) + tail == Reversed(rest) + ([first] + tail)
    ensures |[first] + rest| == 1 + |rest|
  {
    assert ([first] + rest)[1..] == rest;
  }

  /** The samples a level gains in one pass are exactly the rollups of that pass. */
  lemma {:induction false} CaughtUpLog<V>(
    arithmetic: Arithmetic<V>, level: Level<V>, source: seq<Sample<V>>, now: real, earliest: real)
    requires level.entry.interval >= 1.0
    ensures var after := CaughtUp(arithmetic, level, source, now, earliest);
            var made := Rollups(arithmetic, level.entry, source, now, earliest);
            after.log == Reversed(made) + level.log && after.made == level.made + |made|
    decreases Distance(level.entry, now)
  {
    if level.entry.nextTime < now {
      NextIsCloser(level.entry, now);
      var round := Round(arithmetic, level, source, earliest);
      CaughtUpLog(arithmetic, round, source, now, earliest);
      var rest := Rollups(arithmetic, Next(level.entry), source, now, earliest);
      if Next(level.entry).time >= earliest {
        ReversedCons(Rollup(arithmetic, Next(level.entry), source), rest, level.log);
      } else {
        assert [] + rest == rest;
      }
    }
  }

  lemma {:induction false} ReversedSize<T>(s: seq<T>)
    ensures |Reversed(s)| == |s|
    ensures forall i | 0 <= i < |s| :: Reversed(s)[i] == s[|s| - 1 - i]
  {
    if s != [] {
      ReversedSize(s[1..]);
    }
  }

  /** The pass applied to levels x to 7. */
  function Pass<V>(arithmetic: Arithmetic<V>, levels: seq<Level<V>>, x: nat, nows: seq<real>): (after: seq<Level<V>>)
    requires Shaped(levels) && 1 <= x <= LEVELS && |nows| == LEVELS
    ensures Shaped(after)
    decreases LEVELS - x, |levels|
  {
    if x == LEVELS then levels
    else
      PassLevelShaped(arithmetic, levels, x, nows[x]);
      Pass(arithmetic, PassLevel(arithmetic, levels, x, nows[x]), x + 1, nows)
  }

  lemma PassedEntry<V>(arithmetic: Arithmetic<V>, level: Level<V>, source: seq<Sample<V>>, live: real, now: real)
    requires level.entry.interval >= 1.0
    ensures Passed(arithmetic, level, source, live, now).entry
      == if live >= level.entry.nextTime then Advanced(level.entry, now) else level.entry
    ensures var e := Passed(arithmetic, level, source, live, now).entry;
            e.interval == level.entry.interval && e.historyIndex == level.entry.historyIndex
            && e.nextTime >= level.entry.nextTime
  {
    CaughtUpEntry(arithmetic, level, source, now, Earliest(now, level.entry.interval));
    AdvancedFacts(level.entry, now);
  }

  lemma ReplaceShaped<V>(levels: seq<Level<V>>, x: nat, next: Level<V>)
    requires Shaped(levels) && x < LEVELS
    requires next.entry.interval == levels[x].entry.interval && next.entry.historyIndex == levels[x].entry.historyIndex
    ensures Shaped(levels[x := next])
  {
    var after := levels[x := next];
    forall y | 1 <= y < LEVELS ensures WellBased(after, y) {
      assert WellBased(levels, y);
    }
  }

  lemma PassLevelShaped<V>(arithmetic: Arithmetic<V>, levels: seq<Level<V>>, x: nat, now: real)
    requires Shaped(levels) && 1 <= x < LEVELS
    ensures Shaped(PassLevel(arithmetic, levels, x, now))
  {
    assert WellBased(levels, x);
    var source := levels[levels[x].entry.historyIndex].deque;
    PassedEntry(arithmetic, levels[x], source, levels[0].entry.time, now);
    ReplaceShaped(levels, x, Passed(arithmetic, levels[x], source, levels[0].entry.time, now));
  }

  // ------------------------------------------------------------------
  // What every level keeps.
  // ------------------------------------------------------------------

  /** Strictly ordered, nothing lost within the bound, and everything older than what comes next. */
  ghost predicate Ordered<V>(level: Level<V>) {
    && Keeps(level.deque, level.log) && Spaced(level.log, level.entry.interval) && level.made <= |level.log|
    && (level.log != [] ==>
          level.log[0].time + level.entry.interval <= level.entry.nextTime
            && level.log[0].sampleID <= level.entry.sampleID)
  }

  /** Level 0 takes its next time from the scheduler, so only its current time bounds what it holds. */
  ghost predicate OrderedLive<V>(level: Level<V>) {
    && Keeps(level.deque, level.log) && Spaced(level.log, level.entry.interval) && level.made <= |level.log|
    && (level.log != [] ==> level.log[0].time <= level.entry.time && level.log[0].sampleID <= level.entry.sampleID)
  }

  ghost predicate AllOrdered<V>(levels: seq<Level<V>>) {
    Shaped(levels) && OrderedLive(levels[0]) && forall x | 1 <= x < LEVELS :: Ordered(levels[x])
  }

  lemma RoundOrdered<V>(arithmetic: Arithmetic<V>, level: Level<V>, source: seq<Sample<V>>, earliest: real)
    requires level.entry.interval >= 1.0 && Ordered(level)
    ensures Ordered(Round(arithmetic, level, source, earliest))
  {
    var s := Rollup(arithmetic, Next(level.entry), source);
    PushKeeps(level.deque, level.log, s);
    PushSpaced(level.log, level.entry.interval, s);
  }

  /** However long the stall, a level stays strictly ordered and its deque within its bound. */
  lemma {:induction false} CaughtUpOrdered<V>(
    arithmetic: Arithmetic<V>, level: Level<V>, source: seq<Sample<V>>, now: real, earliest: real)
    requires level.entry.interval >= 1.0 && Ordered(level)
    ensures var after := CaughtUp(arithmetic, level, source, now, earliest);
            Ordered(after) && |after.deque| <= Max(HISTORY_SIZE, |level.deque|)
    decreases Distance(level.entry, now)
  {
    if level.entry.nextTime < now {
      NextIsCloser(level.entry, now);
      RoundOrdered(arithmetic, level, source, earliest);
      CaughtUpOrdered(arithmetic, Round(arithmetic, level, source, earliest), source, now, earliest);
    }
  }

  function Max(a: nat, b: nat): nat {
    if a >= b then a else b
  }

  // ------------------------------------------------------------------
  // Rollups are means over complete logs, and stay so.
  // ------------------------------------------------------------------

  /** A rollup made by level x equals the mean over everything its source has ever received. */
  ghost predicate Exact<V>(arithmetic: Arithmetic<V>, e: Entry, s: Sample<V>, log: seq<Sample<V>>) {
    s == Rollup(arithmetic, e.(sampleID := s.sampleID, time := s.time), log)
  }

  /** No later sample of the source can fall into the rollup's window; `seen` is the latest clock reading. */
  ghost predicate Closed<V>(source: Level<V>, live: bool, s: Sample<V>, seen: real) {
    Integral(s.time) && if live then s.time < seen else s.time < source.entry.nextTime
  }

  ghost predicate LevelExact<V>(arithmetic: Arithmetic<V>, level: Level<V>, source: Level<V>, seen: real) {
    forall i | 0 <= i < level.made && i < |level.log| ::
      && Exact(arithmetic, level.entry, level.log[i], source.log)
      && Closed(source, level.entry.historyIndex == 0, level.log[i], seen)
  }

  /** The level that level x is built from. */
  function SourceOf<V>(levels: seq<Level<V>>, x: nat): Level<V>
    requires Shaped(levels) && 1 <= x < LEVELS
  {
    assert WellBased(levels, x);
    levels[levels[x].entry.historyIndex]
  }

  ghost predicate ExactAt<V>(arithmetic: Arithmetic<V>, levels: seq<Level<V>>, x: nat, seen: real)
    requires Shaped(levels) && 1 <= x < LEVELS
  {
    LevelExact(arithmetic, levels[x], SourceOf(levels, x), seen)
  }

  ghost predicate AllExact<V>(arithmetic: Arithmetic<V>, levels: seq<Level<V>>, seen: real)
    requires Shaped(levels)
  {
    forall x | 1 <= x < LEVELS :: ExactAt(arithmetic, levels, x, seen)
  }

  /** Samples newer than a window do not change its rollup. */
  lemma NewerIsInvisible<V>(
    arithmetic: Arithmetic<V>, e: Entry, newer: seq<Sample<V>>, log: seq<Sample<V>>)
    requires forall i | 0 <= i < |newer| :: newer[i].time > High(e)
    ensures Rollup(arithmetic, e, newer + log) == Rollup(arithmetic, e, log)
  {
    WindowSplit(log, newer, Low(e), High(e));
    WindowEmpty(newer, Low(e), High(e));
    assert [] + Window(log, Low(e), High(e)) == Window(log, Low(e), High(e));
  }

  /** When a source only gains samples later than everything rolled up so far, its rollups stay exact. */
  lemma LevelStaysExact<V>(
    arithmetic: Arithmetic<V>, level: Level<V>, source: Level<V>, source': Level<V>, newer: seq<Sample<V>>,
    seen: real, seen': real)
    requires LevelExact(arithmetic, level, source, seen)
    requires source'.log == newer + source.log && source'.entry.nextTime >= source.entry.nextTime && seen' >= seen
    requires forall i | 0 <= i < |newer| ::
      if level.entry.historyIndex == 0 then Integral(newer[i].time) && newer[i].time >= seen
      else newer[i].time >= source.entry.nextTime
    ensures LevelExact(arithmetic, level, source', seen')
  {
    forall i | 0 <= i < level.made && i < |level.log|
      ensures Exact(arithmetic, level.entry, level.log[i], source'.log)
    {
      var s := level.log[i];
      var e := level.entry.(sampleID := s.sampleID, time := s.time);
      forall j | 0 <= j < |newer| ensures newer[j].time > High(e) {
        if level.entry.historyIndex == 0 {
          IntegralGap(s.time, newer[j].time);
        }
      }
      NewerIsInvisible(arithmetic, e, newer, source.log);
    }
  }

  lemma IntegralGap(a: real, b: real)
    requires Integral(a) && Integral(b) && a < b
    ensures b >= a + 1.0
  {
    assert a.Floor as real < b.Floor as real;
    assert a.Floor + 1 <= b.Floor;
  }

  lemma CeilBounds(r: real)
    ensures r <= Ceil(r) as real < r + 1.0 && Integral(Ceil(r) as real)
  {
  }

  /** The next whole second is the first at or after a time. */
  lemma CeilIsLeast(r: real, bound: real)
    requires Integral(bound) && r <= bound
    ensures Ceil(r) as real <= bound
  {
    CeilBounds(r);
    if bound < Ceil(r) as real {
      IntegralGap(bound, Ceil(r) as real);
    }
  }

  // ------------------------------------------------------------------
  // One tick, on time.
  // ------------------------------------------------------------------

  /** A clock reading of the pass of tick t, of which `cell` bounds all: less than a second early. */
  ghost predicate InTime(now: real, t: real, cell: real) {
    t - 1.0 < now <= cell
  }

  /** Where a level's index stands after the pass of tick t, in which it read `now`. */
  function RoundEntry(e: Entry, t: real, now: real): Entry {
    if e.interval >= 1.0 && t >= e.nextTime then Advanced(e, now) else e
  }

  /** The pass of tick t rolls the level up at `limit` or later. */
  ghost predicate Passes(e: Entry, t: real, now: real, limit: real) {
    t >= e.nextTime && exists id :: id > e.sampleID && limit <= GridTime(e, id) < now
  }

  /**
   * Level x overtakes its source, which is built from rollups itself: the level is rolled up at a time for which
   * the source has yet to be.
   */
  ghost predicate Overtakes(entries: seq<Entry>, x: nat, t: real, nows: seq<real>)
    requires |entries| == |nows| == LEVELS && 1 <= x < LEVELS
  {
    var h := entries[x].historyIndex;
    0 < h < x && Passes(entries[x], t, nows[x], RoundEntry(entries[h], t, nows[h]).nextTime)
  }

  /** No level overtakes its source. */
  ghost predicate Clear(entries: seq<Entry>, t: real, nows: seq<real>)
    requires |entries| == |nows| == LEVELS
  {
    forall x | 1 <= x < LEVELS :: !Overtakes(entries, x, t, nows)
  }

  ghost predicate OnTime(entries: seq<Entry>, nows: seq<real>, t: real, cell: real) {
    && |entries| == |nows| == LEVELS && Clear(entries, t, nows)
    && forall x | 1 <= x < LEVELS :: InTime(nows[x], t, cell)
  }

  /** How late the pass of tick t may be: no later than the deques reach back to the tick before, at `anchor`. */
  ghost predicate Prompt(anchor: real, t: real, cell: real) {
    Integral(t) && Integral(cell) && anchor <= t <= cell <= anchor + 593.0
  }

  /** Where a level stands: it has seen everything before `anchor`, and nothing beyond `seen`. */
  ghost predicate Standing(e: Entry, anchor: real, seen: real) {
    Integral(e.nextTime) && anchor - 1.0 < e.nextTime <= seen + e.interval
  }

  /** Between ticks: `anchor` is the last tick (or start-up), `seen` bounds every clock reading so far. */
  ghost predicate Poised<V>(arithmetic: Arithmetic<V>, levels: seq<Level<V>>, anchor: real, seen: real) {
    && AllOrdered(levels) && AllExact(arithmetic, levels, seen) && Integral(seen)
    && forall x | 1 <= x < LEVELS :: Standing(levels[x].entry, anchor, seen)
  }

  /** During the pass of tick t, which found the levels at `entries`: levels below x are done. */
  ghost predicate Passing<V>(
    arithmetic: Arithmetic<V>, levels: seq<Level<V>>, x: nat, entries: seq<Entry>, nows: seq<real>, anchor: real,
    t: real, cell: real)
  {
    && 1 <= x <= LEVELS && Prompt(anchor, t, cell) && OnTime(entries, nows, t, cell)
    && AllOrdered(levels) && AllExact(arithmetic, levels, cell)
    && levels[0].entry.time == t
    && (forall y | 1 <= y < LEVELS :: Standing(levels[y].entry, anchor, cell))
    && (forall y | 1 <= y < x ::
          levels[y].entry == RoundEntry(entries[y], t, nows[y]) && levels[y].entry.nextTime > t - 1.0)
    && (forall y | x <= y < LEVELS :: levels[y].entry == entries[y])
  }

  /** What a level gains in one pass, newest first. */
  ghost function GainedBy<V>(
    arithmetic: Arithmetic<V>, level: Level<V>, source: seq<Sample<V>>, live: real, now: real): seq<Sample<V>>
    requires level.entry.interval >= 1.0
  {
    var e := level.entry;
    if live >= e.nextTime then Reversed(Rollups(arithmetic, e, source, now, Earliest(now, e.interval))) else []
  }

  ghost function Gained<V>(arithmetic: Arithmetic<V>, levels: seq<Level<V>>, x: nat, now: real): seq<Sample<V>>
    requires Shaped(levels) && 1 <= x < LEVELS
  {
    assert WellBased(levels, x);
    GainedBy(arithmetic, levels[x], SourceOf(levels, x).deque, levels[0].entry.time, now)
  }

  lemma ReversedMembers<T>(s: seq<T>, a: T)
    ensures a in Reversed(s) <==> a in s
  {
    ReversedSize(s);
    if a in s {
      var i :| 0 <= i < |s| && s[i] == a;
      assert Reversed(s)[|s| - 1 - i] == a;
    }
  }

  ghost predicate GrownBy<V>(level: Level<V>, gained: seq<Sample<V>>, after: Level<V>) {
    Ordered(after) && after.log == gained + level.log && after.made == level.made + |gained|
  }

  /** One level's share of the pass, seen from that level alone. */
  lemma PassedGains<V>(arithmetic: Arithmetic<V>, level: Level<V>, source: seq<Sample<V>>, live: real, now: real)
    requires level.entry.interval >= 1.0 && Ordered(level)
    ensures GrownBy(level, GainedBy(arithmetic, level, source, live, now),
                    Passed(arithmetic, level, source, live, now))
  {
    var gained := GainedBy(arithmetic, level, source, live, now);
    if live >= level.entry.nextTime {
      var earliest := Earliest(now, level.entry.interval);
      CaughtUpGains(arithmetic, level, source, now, earliest);
      assert gained == Reversed(Rollups(arithmetic, level.entry, source, now, earliest));
    } else {
      NothingGained(level);
      assert gained == [];
    }
  }

  lemma NothingGained<V>(level: Level<V>)
    requires Ordered(level)
    ensures GrownBy(level, [], level)
  {
    assert [] + level.log == level.log;
  }

  lemma CaughtUpGains<V>(arithmetic: Arithmetic<V>, level: Level<V>, source: seq<Sample<V>>, now: real, earliest: real)
    requires level.entry.interval >= 1.0 && Ordered(level)
    ensures GrownBy(level, Reversed(Rollups(arithmetic, level.entry, source, now, earliest)),
                    CaughtUp(arithmetic, level, source, now, earliest))
  {
    CaughtUpOrdered(arithmetic, level, source, now, earliest);
    CaughtUpLog(arithmetic, level, source, now, earliest);
    ReversedSize(Rollups(arithmetic, level.entry, source, now, earliest));
  }

  lemma PassedMade<V>(
    arithmetic: Arithmetic<V>, level: Level<V>, source: seq<Sample<V>>, live: real, now: real, s: Sample<V>)
    requires level.entry.interval >= 1.0 && s in GainedBy(arithmetic, level, source, live, now)
    ensures live >= level.entry.nextTime
    ensures MadeIn(arithmetic, level.entry, source, now, Earliest(now, level.entry.interval), s)
  {
    var earliest := Earliest(now, level.entry.interval);
    RollupsFormPass(arithmetic, level.entry, source, now, earliest);
    ReversedMembers(Rollups(arithmetic, level.entry, source, now, earliest), s);
  }

  lemma ReplaceOrdered<V>(levels: seq<Level<V>>, x: nat, next: Level<V>)
    requires AllOrdered(levels) && 1 <= x < LEVELS && Ordered(next) && Shaped(levels[x := next])
    ensures AllOrdered(levels[x := next])
  {
  }

  lemma PassLevelOrdered<V>(arithmetic: Arithmetic<V>, levels: seq<Level<V>>, x: nat, now: real)
    requires AllOrdered(levels) && 1 <= x < LEVELS
    ensures AllOrdered(PassLevel(arithmetic, levels, x, now))
  {
    assert WellBased(levels, x);
    PassLevelShaped(arithmetic, levels, x, now);
    var source := SourceOf(levels, x).deque;
    PassedGains(arithmetic, levels[x], source, levels[0].entry.time, now);
    ReplaceOrdered(levels, x, Passed(arithmetic, levels[x], source, levels[0].entry.time, now));
  }

  /** After its share of the pass, level x has its gains in front of its log, and the others are untouched. */
  ghost predicate Grown<V>(levels: seq<Level<V>>, after: seq<Level<V>>, x: nat, gained: seq<Sample<V>>)
    requires |levels| == |after| && x < |levels|
  {
    && after == levels[x := after[x]]
    && after[x].log == gained + levels[x].log && after[x].made == levels[x].made + |gained|
    && after[x].entry.nextTime >= levels[x].entry.nextTime
    && after[x].entry.historyIndex == levels[x].entry.historyIndex
    && after[x].entry.interval == levels[x].entry.interval
  }

  lemma PassLevelGains<V>(arithmetic: Arithmetic<V>, levels: seq<Level<V>>, x: nat, now: real)
    requires AllOrdered(levels) && 1 <= x < LEVELS
    ensures Grown(levels, PassLevel(arithmetic, levels, x, now), x, Gained(arithmetic, levels, x, now))
  {
    assert WellBased(levels, x);
    var source := SourceOf(levels, x).deque;
    PassedGains(arithmetic, levels[x], source, levels[0].entry.time, now);
    PassedEntry(arithmetic, levels[x], source, levels[0].entry.time, now);
  }

  /** A level's next time stays whole, and the pass leaves it less than a second before t at the earliest. */
  lemma PassedNext<V>(
    arithmetic: Arithmetic<V>, level: Level<V>, source: seq<Sample<V>>, anchor: real, t: real, now: real, cell: real)
    requires level.entry.interval >= 1.0 && Integral(level.entry.interval) && Standing(level.entry, anchor, cell)
    requires InTime(now, t, cell)
    ensures var e := Passed(arithmetic, level, source, t, now).entry;
            Standing(e, anchor, cell) && e.nextTime > t - 1.0 && e == RoundEntry(level.entry, t, now)
  {
    PassedEntry(arithmetic, level, source, t, now);
    if t >= level.entry.nextTime {
      AdvancedFacts(level.entry, now);
      AdvancedIsIntegral(level.entry, now);
    }
  }

  lemma GainedAreMade<V>(arithmetic: Arithmetic<V>, levels: seq<Level<V>>, x: nat, now: real, s: Sample<V>)
    requires AllOrdered(levels) && 1 <= x < LEVELS && s in Gained(arithmetic, levels, x, now)
    ensures levels[0].entry.time >= levels[x].entry.nextTime && levels[x].entry.interval >= 1.0
    ensures var e := levels[x].entry;
            MadeIn(arithmetic, e, SourceOf(levels, x).deque, now, Earliest(now, e.interval), s)
  {
    assert WellBased(levels, x);
    PassedMade(arithmetic, levels[x], SourceOf(levels, x).deque, levels[0].entry.time, now, s);
  }

  /** A new rollup lies before everything its source can still receive. */
  lemma GainedIsClosed<V>(
    arithmetic: Arithmetic<V>, e: Entry, source: Level<V>, t: real, now: real, cell: real, s: Sample<V>)
    requires e.interval >= 1.0 && t >= e.nextTime && now <= cell
    requires e.historyIndex > 0 ==> !Passes(e, t, now, source.entry.nextTime)
    requires Integral(s.time) && MadeIn(arithmetic, e, source.deque, now, Earliest(now, e.interval), s)
    ensures Closed(source, e.historyIndex == 0, s, cell)
  {
    assert s.time == GridTime(e, s.sampleID);
  }

  lemma GainedAreExact<V>(
    arithmetic: Arithmetic<V>, levels: seq<Level<V>>, x: nat, entries: seq<Entry>, nows: seq<real>, anchor: real,
    t: real, cell: real, s: Sample<V>)
    requires Passing(arithmetic, levels, x, entries, nows, anchor, t, cell) && x < LEVELS
    requires s in Gained(arithmetic, levels, x, nows[x])
    ensures Exact(arithmetic, levels[x].entry, s, SourceOf(levels, x).log)
    ensures Closed(SourceOf(levels, x), levels[x].entry.historyIndex == 0, s, cell)
    ensures s.time >= levels[x].entry.nextTime
  {
    GainedAreMade(arithmetic, levels, x, nows[x], s);
    assert WellBased(levels, x) && Standing(levels[x].entry, anchor, cell);
    var e, source := levels[x].entry, SourceOf(levels, x);
    GridIsIntegral(e, s.sampleID);
    assert e == entries[x] && !Overtakes(entries, x, t, nows);
    if e.historyIndex > 0 {
      assert Ordered(source) && Standing(source.entry, anchor, cell);
    }
    GainedIsClosed(arithmetic, e, source, t, nows[x], cell, s);
    RollupIsExact(arithmetic, e, source, nows[x], anchor, cell, s);
  }

  lemma RollupIsExact<V>(
    arithmetic: Arithmetic<V>, e: Entry, source: Level<V>, now: real, anchor: real, cell: real, s: Sample<V>)
    requires e.interval >= 1.0 && source.entry.interval >= 0.0
    requires source.entry.interval * HISTORY_SIZE as real - e.interval >= 594.0
    requires Keeps(source.deque, source.log) && Spaced(source.log, source.entry.interval)
    requires source.log != [] ==> source.log[0].time <= cell
    requires e.nextTime > anchor - 1.0 && cell <= anchor + 593.0
    requires MadeIn(arithmetic, e, source.deque, now, Earliest(now, e.interval), s)
    ensures Exact(arithmetic, e, s, source.log)
  {
    var at := e.(sampleID := s.sampleID, time := s.time);
    RecentWindowsAreCovered(source.deque, source.log, source.entry.interval, Low(at));
    RollupFromDeque(arithmetic, at, source.deque, source.log, source.entry.interval);
  }

  lemma GridIsIntegral(e: Entry, id: int)
    requires Integral(e.interval) && Integral(e.nextTime)
    ensures Integral(GridTime(e, id))
  {
    var i, k := e.interval.Floor, id - e.sampleID - 1;
    assert e.interval * k as real == (i * k) as real;
    assert GridTime(e, id) == (e.nextTime.Floor + i * k) as real;
  }

  lemma IntegralSum(a: real, b: real)
    requires Integral(a) && Integral(b)
    ensures Integral(a + b)
  {
    assert a + b == (a.Floor + b.Floor) as real;
  }

  lemma {:induction false} AdvancedIsIntegral(e: Entry, now: real)
    requires Integral(e.interval) && e.interval >= 1.0 && Integral(e.nextTime)
    ensures Integral(Advanced(e, now).nextTime)
    decreases Distance(e, now)
  {
    if e.nextTime < now {
      NextIsCloser(e, now);
      IntegralSum(e.nextTime, e.interval);
      AdvancedIsIntegral(Next(e), now);
    }
  }

  /** New rollups of a level are exact and closed, and at or after the time at which it stood. */
  ghost predicate NewlyExact<V>(
    arithmetic: Arithmetic<V>, level: Level<V>, source: Level<V>, gained: seq<Sample<V>>, seen: real)
  {
    forall s | s in gained ::
      && Exact(arithmetic, level.entry, s, source.log) && Closed(source, level.entry.historyIndex == 0, s, seen)
      && s.time >= level.entry.nextTime
  }

  lemma GainedAreNewlyExact<V>(
    arithmetic: Arithmetic<V>, levels: seq<Level<V>>, x: nat, entries: seq<Entry>, nows: seq<real>, anchor: real,
    t: real, cell: real)
    requires Passing(arithmetic, levels, x, entries, nows, anchor, t, cell) && x < LEVELS
    ensures NewlyExact(arithmetic, levels[x], SourceOf(levels, x), Gained(arithmetic, levels, x, nows[x]), cell)
  {
    forall s | s in Gained(arithmetic, levels, x, nows[x])
      ensures Exact(arithmetic, levels[x].entry, s, SourceOf(levels, x).log)
      ensures Closed(SourceOf(levels, x), levels[x].entry.historyIndex == 0, s, cell)
      ensures s.time >= levels[x].entry.nextTime
    {
      GainedAreExact(arithmetic, levels, x, entries, nows, anchor, t, cell, s);
    }
  }

  lemma PassLevelExact<V>(arithmetic: Arithmetic<V>, levels: seq<Level<V>>, x: nat, now: real, cell: real, y: nat)
    requires AllOrdered(levels) && AllExact(arithmetic, levels, cell) && 1 <= x < LEVELS && 1 <= y < LEVELS
    requires NewlyExact(arithmetic, levels[x], SourceOf(levels, x), Gained(arithmetic, levels, x, now), cell)
    requires Shaped(PassLevel(arithmetic, levels, x, now))
    ensures ExactAt(arithmetic, PassLevel(arithmetic, levels, x, now), y, cell)
  {
    var after, gained := PassLevel(arithmetic, levels, x, now), Gained(arithmetic, levels, x, now);
    PassLevelGains(arithmetic, levels, x, now);
    assert WellBased(levels, y) && ExactAt(arithmetic, levels, y, cell);
    if y == x {
      NewOnesExact(arithmetic, levels[x], after[x], SourceOf(levels, x), gained, cell);
    } else if levels[y].entry.historyIndex == x {
      LevelStaysExact(arithmetic, levels[y], levels[x], after[x], gained, cell, cell);
    }
  }

  lemma NewOnesExact<V>(
    arithmetic: Arithmetic<V>, level: Level<V>, after: Level<V>, source: Level<V>, gained: seq<Sample<V>>, seen: real)
    requires LevelExact(arithmetic, level, source, seen)
    requires after.log == gained + level.log && after.made == level.made + |gained|
    requires after.entry.historyIndex == level.entry.historyIndex && after.entry.interval == level.entry.interval
    requires NewlyExact(arithmetic, level, source, gained, seen)
    ensures LevelExact(arithmetic, after, source, seen)
  {
    forall i | 0 <= i < after.made && i < |after.log|
      ensures Exact(arithmetic, after.entry, after.log[i], source.log)
      ensures Closed(source, after.entry.historyIndex == 0, after.log[i], seen)
    {
      if i < |gained| {
        assert after.log[i] in gained;
      } else {
        assert after.log[i] == level.log[i - |gained|];
      }
    }
  }

  lemma PassLevelPasses<V>(
    arithmetic: Arithmetic<V>, levels: seq<Level<V>>, x: nat, entries: seq<Entry>, nows: seq<real>, anchor: real,
    t: real, cell: real)
    requires Passing(arithmetic, levels, x, entries, nows, anchor, t, cell) && x < LEVELS
    ensures Passing(arithmetic, PassLevel(arithmetic, levels, x, nows[x]), x + 1, entries, nows, anchor, t, cell)
  {
    var now := nows[x];
    var after := PassLevel(arithmetic, levels, x, now);
    PassLevelOrdered(arithmetic, levels, x, now);
    PassLevelGains(arithmetic, levels, x, now);
    assert WellBased(levels, x) && InTime(now, t, cell);
    PassedNext(arithmetic, levels[x], SourceOf(levels, x).deque, anchor, t, now, cell);
    GainedAreNewlyExact(arithmetic, levels, x, entries, nows, anchor, t, cell);
    forall y | 1 <= y < LEVELS ensures ExactAt(arithmetic, after, y, cell) {
      PassLevelExact(arithmetic, levels, x, now, cell, y);
    }
  }

  lemma {:induction false} PassPasses<V>(
    arithmetic: Arithmetic<V>, levels: seq<Level<V>>, x: nat, entries: seq<Entry>, nows: seq<real>, anchor: real,
    t: real, cell: real)
    requires Passing(arithmetic, levels, x, entries, nows, anchor, t, cell)
    ensures Passing(arithmetic, Pass(arithmetic, levels, x, nows), LEVELS, entries, nows, anchor, t, cell)
    decreases LEVELS - x
  {
    if x < LEVELS {
      var next := PassLevel(arithmetic, levels, x, nows[x]);
      PassLevelPasses(arithmetic, levels, x, entries, nows, anchor, t, cell);
      PassPasses(arithmetic, next, x + 1, entries, nows, anchor, t, cell);
      PassStep(arithmetic, levels, x, nows);
    }
  }

  lemma PassStep<V>(arithmetic: Arithmetic<V>, levels: seq<Level<V>>, x: nat, nows: seq<real>)
    requires Shaped(levels) && 1 <= x < LEVELS && |nows| == LEVELS
    ensures Shaped(PassLevel(arithmetic, levels, x, nows[x]))
    ensures Pass(arithmetic, levels, x, nows)
      == Pass(arithmetic, PassLevel(arithmetic, levels, x, nows[x]), x + 1, nows)
  {
    PassLevelShaped(arithmetic, levels, x, nows[x]);
  }

  /** `prepareUpdate` and `processSample`: the live level takes the scheduler's time and, if there is one, a reading. */
  function LiveSample<V>(levels: seq<Level<V>>, t: real, reading: Option<V>): (after: seq<Level<V>>)
    requires |levels| == LEVELS
    ensures |after| == LEVELS
  {
    var e := levels[0].entry.(time := t, nextTime := t, sampleID := levels[0].entry.sampleID + 1);
    var moved := levels[0].(entry := e);
    levels[0 := if reading.Some? then Receive(moved, Sample(reading.value, e.sampleID, t, false)) else moved]
  }

  /** What the live level gains in a tick, newest first. */
  function LiveGain<V>(levels: seq<Level<V>>, t: real, reading: Option<V>): seq<Sample<V>>
    requires |levels| == LEVELS
  {
    if reading.Some? then [Sample(reading.value, levels[0].entry.sampleID + 1, t, false)] else []
  }

  lemma LiveSampleShaped<V>(levels: seq<Level<V>>, t: real, reading: Option<V>)
    requires Shaped(levels)
    ensures Shaped(LiveSample(levels, t, reading))
  {
    forall y | 1 <= y < LEVELS ensures WellBased(LiveSample(levels, t, reading), y) {
      assert WellBased(levels, y);
    }
  }

  /** A whole tick. */
  function Tick<V>(
    arithmetic: Arithmetic<V>, levels: seq<Level<V>>, t: real, reading: Option<V>, nows: seq<real>): seq<Level<V>>
    requires Shaped(levels) && |nows| == LEVELS
  {
    LiveSampleShaped(levels, t, reading);
    Pass(arithmetic, LiveSample(levels, t, reading), 1, nows)
  }

  lemma LiveSampleOrdered<V>(levels: seq<Level<V>>, t: real, reading: Option<V>)
    requires AllOrdered(levels) && t >= levels[0].entry.time + 1.0
    ensures AllOrdered(LiveSample(levels, t, reading))
  {
    LiveSampleShaped(levels, t, reading);
    if reading.Some? {
      var s := LiveGain(levels, t, reading)[0];
      PushKeeps(levels[0].deque, levels[0].log, s);
      PushSpaced(levels[0].log, 1.0, s);
    }
  }

  lemma LiveSampleExactAt<V>(
    arithmetic: Arithmetic<V>, levels: seq<Level<V>>, t: real, reading: Option<V>, seen: real, cell: real, y: nat)
    requires Shaped(levels) && 1 <= y < LEVELS && ExactAt(arithmetic, levels, y, seen)
    requires Integral(t) && seen <= t <= cell && Shaped(LiveSample(levels, t, reading))
    ensures ExactAt(arithmetic, LiveSample(levels, t, reading), y, cell)
  {
    var after, gain := LiveSample(levels, t, reading), LiveGain(levels, t, reading);
    var source := SourceOf(levels, y);
    assert WellBased(levels, y) && after[y] == levels[y];
    if levels[y].entry.historyIndex == 0 {
      assert after[0].log == gain + levels[0].log;
      LevelStaysExact(arithmetic, levels[y], source, after[0].(entry := levels[0].entry), gain, seen, cell);
    } else {
      assert [] + source.log == source.log;
      assert SourceOf(after, y) == source;
      LevelStaysExact(arithmetic, levels[y], source, source, [], seen, cell);
    }
  }

  /** The indices of all levels. */
  function Entries<V>(levels: seq<Level<V>>): (entries: seq<Entry>)
    ensures |entries| == |levels|
  {
    seq(|levels|, x requires 0 <= x < |levels| => levels[x].entry)
  }

  lemma LiveSampleStarts<V>(
    arithmetic: Arithmetic<V>, levels: seq<Level<V>>, t: real, reading: Option<V>, nows: seq<real>, anchor: real,
    seen: real, cell: real)
    requires Poised(arithmetic, levels, anchor, seen) && Prompt(anchor, t, cell)
    requires OnTime(Entries(levels), nows, t, cell) && t >= levels[0].entry.time + 1.0 && t >= seen
    ensures Passing(arithmetic, LiveSample(levels, t, reading), 1, Entries(levels), nows, anchor, t, cell)
  {
    var after := LiveSample(levels, t, reading);
    LiveSampleOrdered(levels, t, reading);
    forall y | 1 <= y < LEVELS ensures ExactAt(arithmetic, after, y, cell) {
      LiveSampleExactAt(arithmetic, levels, t, reading, seen, cell, y);
    }
  }

  /**
   * The main result for one series: in every run of punctual ticks, each rollup any level has made since
   * start-up is the mean, over everything its source level has received up to now, of the samples in its window.
   */
  lemma TickStaysExact<V>(
    arithmetic: Arithmetic<V>, levels: seq<Level<V>>, t: real, reading: Option<V>, nows: seq<real>,
    anchor: real, seen: real, cell: real)
    requires Poised(arithmetic, levels, anchor, seen) && Prompt(anchor, t, cell)
    requires OnTime(Entries(levels), nows, t, cell) && t >= levels[0].entry.time + 1.0 && t >= seen
    ensures Poised(arithmetic, Tick(arithmetic, levels, t, reading, nows), t, cell)
  {
    LiveSampleStarts(arithmetic, levels, t, reading, nows, anchor, seen, cell);
    LiveSampleShaped(levels, t, reading);
    PassPasses(arithmetic, LiveSample(levels, t, reading), 1, Entries(levels), nows, anchor, t, cell);
  }

  /**
   * Punctual or not: a rollup equals the mean over its source's complete log as soon as no evicted sample is
   * at or after the start of its window.
   */
  lemma CoveredRollupsAreExact<V>(arithmetic: Arithmetic<V>, levels: seq<Level<V>>, x: nat, now: real, s: Sample<V>)
    requires AllOrdered(levels) && 1 <= x < LEVELS && s in Gained(arithmetic, levels, x, now)
    requires Covers(SourceOf(levels, x).deque, SourceOf(levels, x).log, s.time - levels[x].entry.interval)
    ensures Exact(arithmetic, levels[x].entry, s, SourceOf(levels, x).log)
  {
    GainedAreMade(arithmetic, levels, x, now, s);
    assert WellBased(levels, x);
    var e, source := levels[x].entry, SourceOf(levels, x);
    RollupFromDeque(arithmetic, e.(sampleID := s.sampleID, time := s.time), source.deque, source.log,
      source.entry.interval);
  }

  // ------------------------------------------------------------------
  // Whole runs.
  // ------------------------------------------------------------------

  /** A tick's time and reading, its clock readings, and the whole second that bounds them. */
  datatype TickInput<V> = TickInput(t: real, reading: Option<V>, nows: seq<real>, cell: real)

  ghost predicate Timed<V>(ticks: seq<TickInput<V>>) {
    forall i | 0 <= i < |ticks| :: |ticks[i].nows| == LEVELS
  }

  function Run<V>(arithmetic: Arithmetic<V>, levels: seq<Level<V>>, ticks: seq<TickInput<V>>): (after: seq<Level<V>>)
    requires Shaped(levels) && Timed(ticks)
    ensures Shaped(after)
    decreases |ticks|
  {
    if ticks == [] then levels
    else
      TickShaped(arithmetic, levels, ticks[0].t, ticks[0].reading, ticks[0].nows);
      Run(arithmetic, Tick(arithmetic, levels, ticks[0].t, ticks[0].reading, ticks[0].nows), ticks[1..])
  }

  lemma TickShaped<V>(arithmetic: Arithmetic<V>, levels: seq<Level<V>>, t: real, reading: Option<V>, nows: seq<real>)
    requires Shaped(levels) && |nows| == LEVELS
    ensures Shaped(Tick(arithmetic, levels, t, reading, nows))
  {
    LiveSampleShaped(levels, t, reading);
  }

  /** The tick follows the last one and every clock reading, and is punctual for levels at `entries`. */
  ghost predicate PunctualTick<V>(entries: seq<Entry>, tick: TickInput<V>, anchor: real, seen: real) {
    && OnTime(entries, tick.nows, tick.t, tick.cell) && Prompt(anchor, tick.t, tick.cell)
    && tick.t >= entries[0].time + 1.0 && tick.t >= seen
  }

  /** Where a tick leaves the indices, whatever was measured. */
  function TickedEntries(entries: seq<Entry>, t: real, nows: seq<real>): (after: seq<Entry>)
    requires |entries| == |nows| == LEVELS
    ensures |after| == LEVELS
  {
    [entries[0].(time := t, nextTime := t, sampleID := entries[0].sampleID + 1)]
    + seq(LEVELS - 1, y requires 0 <= y < LEVELS - 1 => RoundEntry(entries[y + 1], t, nows[y + 1]))
  }

  ghost predicate Punctual<V>(entries: seq<Entry>, ticks: seq<TickInput<V>>, anchor: real, seen: real)
    decreases |ticks|
  {
    ticks != [] ==>
      && PunctualTick(entries, ticks[0], anchor, seen)
      && Punctual(TickedEntries(entries, ticks[0].t, ticks[0].nows), ticks[1..], ticks[0].t, ticks[0].cell)
  }

  /** Levels are passed in order, so a level below the current one is done. */
  lemma {:induction false} PassKeeps<V>(
    arithmetic: Arithmetic<V>, levels: seq<Level<V>>, x: nat, nows: seq<real>, y: nat)
    requires Shaped(levels) && 1 <= x <= LEVELS && |nows| == LEVELS && y < x && y < LEVELS
    ensures Pass(arithmetic, levels, x, nows)[y] == levels[y]
    decreases LEVELS - x
  {
    if x < LEVELS {
      PassLevelShaped(arithmetic, levels, x, nows[x]);
      PassKeeps(arithmetic, PassLevel(arithmetic, levels, x, nows[x]), x + 1, nows, y);
    }
  }

  lemma {:induction false} PassOrdered<V>(arithmetic: Arithmetic<V>, levels: seq<Level<V>>, x: nat, nows: seq<real>)
    requires AllOrdered(levels) && 1 <= x <= LEVELS && |nows| == LEVELS
    ensures AllOrdered(Pass(arithmetic, levels, x, nows))
    decreases LEVELS - x
  {
    if x < LEVELS {
      PassLevelOrdered(arithmetic, levels, x, nows[x]);
      PassOrdered(arithmetic, PassLevel(arithmetic, levels, x, nows[x]), x + 1, nows);
    }
  }

  /** Ids and times stay strictly descending in every log of every run whose ticks advance, however late they are. */
  lemma TickStaysOrdered<V>(
    arithmetic: Arithmetic<V>, levels: seq<Level<V>>, t: real, reading: Option<V>, nows: seq<real>)
    requires AllOrdered(levels) && t >= levels[0].entry.time + 1.0 && |nows| == LEVELS
    ensures AllOrdered(Tick(arithmetic, levels, t, reading, nows))
    ensures Tick(arithmetic, levels, t, reading, nows)[0].entry.time == t
    ensures Tick(arithmetic, levels, t, reading, nows)[0].log ==
      LiveGain(levels, t, reading) + levels[0].log
  {
    LiveSampleOrdered(levels, t, reading);
    PassOrdered(arithmetic, LiveSample(levels, t, reading), 1, nows);
    PassKeeps(arithmetic, LiveSample(levels, t, reading), 1, nows, 0);
  }

  /** At the end of every punctual run all rollups are still exact. */
  lemma {:induction false} RunStaysExact<V>(
    arithmetic: Arithmetic<V>, levels: seq<Level<V>>, ticks: seq<TickInput<V>>, anchor: real, seen: real)
    requires Timed(ticks) && Poised(arithmetic, levels, anchor, seen)
    requires Punctual(Entries(levels), ticks, anchor, seen)
    ensures AllExact(arithmetic, Run(arithmetic, levels, ticks), LastCell(ticks, seen))
    decreases |ticks|
  {
    if ticks != [] {
      var tick := ticks[0];
      var after := PunctualStep(arithmetic, levels, tick, anchor, seen);
      RunStaysExact(arithmetic, after, ticks[1..], tick.t, tick.cell);
    }
  }

  /** The last bound on the clock readings. */
  function LastCell<V>(ticks: seq<TickInput<V>>, seen: real): real
    decreases |ticks|
  {
    if ticks == [] then seen else LastCell(ticks[1..], ticks[0].cell)
  }

  lemma PunctualStep<V>(
    arithmetic: Arithmetic<V>, levels: seq<Level<V>>, tick: TickInput<V>, anchor: real, seen: real)
    returns (after: seq<Level<V>>)
    requires Poised(arithmetic, levels, anchor, seen) && PunctualTick(Entries(levels), tick, anchor, seen)
    ensures after == Tick(arithmetic, levels, tick.t, tick.reading, tick.nows)
    ensures Poised(arithmetic, after, tick.t, tick.cell)
    ensures Entries(after) == TickedEntries(Entries(levels), tick.t, tick.nows)
  {
    after := Tick(arithmetic, levels, tick.t, tick.reading, tick.nows);
    TickStaysExact(arithmetic, levels, tick.t, tick.reading, tick.nows, anchor, seen, tick.cell);
    TickMovesEntries(arithmetic, levels, tick.t, tick.reading, tick.nows);
  }

  lemma TickMovesEntries<V>(
    arithmetic: Arithmetic<V>, levels: seq<Level<V>>, t: real, reading: Option<V>, nows: seq<real>)
    requires Shaped(levels) && |nows| == LEVELS
    ensures Entries(Tick(arithmetic, levels, t, reading, nows)) == TickedEntries(Entries(levels), t, nows)
  {
    var after, moved := Tick(arithmetic, levels, t, reading, nows), TickedEntries(Entries(levels), t, nows);
    LiveSampleShaped(levels, t, reading);
    PassKeeps(arithmetic, LiveSample(levels, t, reading), 1, nows, 0);
    forall y | 0 <= y < LEVELS ensures |after| == LEVELS && after[y].entry == moved[y] {
      if y > 0 {
        TickEach(arithmetic, levels, t, reading, nows, y);
        PassedEntry(arithmetic, levels[y], after[levels[y].entry.historyIndex].deque, t, nows[y]);
      }
    }
  }

  /** Start-up, with whatever was loaded, is a place to start such a run. */
  lemma StartIsPoised<V>(arithmetic: Arithmetic<V>, levels: seq<Level<V>>, started: real, seen: real)
    requires AllOrdered(levels) && Integral(seen) && forall x | 1 <= x < LEVELS :: levels[x].made == 0
    requires forall x | 1 <= x < LEVELS :: Standing(levels[x].entry, started, seen)
    ensures Poised(arithmetic, levels, started, seen)
  {
    forall x | 1 <= x < LEVELS ensures ExactAt(arithmetic, levels, x, seen) {
      assert WellBased(levels, x);
    }
  }

  // ------------------------------------------------------------------
  // What one tick does to one level.
  // ------------------------------------------------------------------

  /** Every level has its share of the pass, built from its source as the pass leaves it. */
  lemma {:induction false} PassEach<V>(
    arithmetic: Arithmetic<V>, levels: seq<Level<V>>, x: nat, nows: seq<real>, y: nat)
    requires Shaped(levels) && 1 <= x <= y < LEVELS && |nows| == LEVELS
    ensures levels[y].entry.interval >= 1.0 && levels[y].entry.historyIndex < y
    ensures var after := Pass(arithmetic, levels, x, nows);
            after[y] == Passed(arithmetic, levels[y], after[levels[y].entry.historyIndex].deque,
                               levels[0].entry.time, nows[y])
    decreases LEVELS - x
  {
    assert WellBased(levels, y);
    PassLevelShaped(arithmetic, levels, x, nows[x]);
    var next := PassLevel(arithmetic, levels, x, nows[x]);
    if x == y {
      PassKeeps(arithmetic, next, x + 1, nows, y);
      PassKeeps(arithmetic, next, x + 1, nows, levels[y].entry.historyIndex);
    } else {
      PassEach(arithmetic, next, x + 1, nows, y);
    }
  }

  lemma TickEach<V>(
    arithmetic: Arithmetic<V>, levels: seq<Level<V>>, t: real, reading: Option<V>, nows: seq<real>, y: nat)
    requires Shaped(levels) && |nows| == LEVELS && 1 <= y < LEVELS
    ensures levels[y].entry.interval >= 1.0 && levels[y].entry.historyIndex < y
    ensures var after := Tick(arithmetic, levels, t, reading, nows);
            |after| == LEVELS
            && after[y] == Passed(arithmetic, levels[y], after[levels[y].entry.historyIndex].deque, t, nows[y])
  {
    LiveSampleShaped(levels, t, reading);
    PassEach(arithmetic, LiveSample(levels, t, reading), 1, nows, y);
  }
}
