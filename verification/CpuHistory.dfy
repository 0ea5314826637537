/** The CPU collector: live samples, the rollup pyramid in place, and its queue of database rows. */
module CpuHistory {
  import opened Levels
  import opened Options
  import opened Pyramid
  import opened Words
  import Persistence

  datatype Cpu = Cpu(u: real, s: real, n: real, io: real)

  const ZERO: Cpu := Cpu(0.0, 0.0, 0.0, 0.0)

  function Plus(a: Cpu, b: Cpu): Cpu {
    Cpu(a.u + b.u, a.s + b.s, a.n + b.n, a.io + b.io)
  }

  function Over(a: Cpu, count: nat): Cpu {
    if count == 0 then a
    else Cpu(a.u / count as real, a.s / count as real, a.n / count as real, a.io / count as real)
  }

  const CPU: Arithmetic<Cpu> := Arithmetic(ZERO, Plus, Over)

  // ------------------------------------------------------------------
  // Tick counters. They are unsigned 64-bit numbers and wrap.
  // ------------------------------------------------------------------

  datatype Ticks = Ticks(user: nat, nice: nat, kernel: nat, idle: nat, wait: nat)

  function Busy(t: Ticks): nat {
    Wrap(t.user + t.kernel + t.nice + t.idle)
  }

  function Share(now: nat, last: nat, ticks: real): real {
    if ticks > 0.0 then Wrap(now - last) as real / ticks * 100.0 else 0.0
  }

  /** What the counters are compared with: the first reading is compared with itself. */
  function Baseline(last: Ticks, now: Ticks, total: nat): Ticks {
    if total == 0 && last.user == 0 then now else last
  }

  function Elapsed(last: Ticks, now: Ticks, total: nat): real {
    if total > 0 then total as real else Busy(now) as real - Busy(Baseline(last, now, total)) as real
  }

  function Measured(last: Ticks, now: Ticks, total: nat): Cpu {
    var base, ticks := Baseline(last, now, total), Elapsed(last, now, total);
    Cpu(Share(now.user, base.user, ticks), Share(now.kernel, base.kernel, ticks),
        Share(now.nice, base.nice, ticks), Share(now.wait, base.wait, ticks))
  }

  ghost predicate Advances(last: Ticks, now: Ticks) {
    && last.user <= now.user && last.nice <= now.nice && last.kernel <= now.kernel && last.idle <= now.idle
    && now.user + now.kernel + now.nice + now.idle < WORD
  }

  /** For counters that only grow, user, kernel, nice and idle time add up to the whole interval. */
  lemma SharesAddUp(last: Ticks, now: Ticks)
    requires last.user != 0 && Advances(last, now)
    ensures var ticks := Elapsed(last, now, 0);
            && ticks >= 0.0
            && (ticks > 0.0 ==>
                  Share(now.user, last.user, ticks) + Share(now.kernel, last.kernel, ticks)
                  + Share(now.nice, last.nice, ticks) + Share(now.idle, last.idle, ticks) == 100.0)
  {
    SmallDoesNotWrap(now.user + now.kernel + now.nice + now.idle);
    SmallDoesNotWrap(last.user + last.kernel + last.nice + last.idle);
    SmallDoesNotWrap(now.user - last.user);
    SmallDoesNotWrap(now.kernel - last.kernel);
    SmallDoesNotWrap(now.nice - last.nice);
    SmallDoesNotWrap(now.idle - last.idle);
    var ticks := Elapsed(last, now, 0);
    if ticks > 0.0 {
      PartsOfWhole((now.user - last.user) as real, (now.kernel - last.kernel) as real,
                   (now.nice - last.nice) as real, (now.idle - last.idle) as real, ticks);
    }
  }

  lemma PartsOfWhole(a: real, b: real, c: real, d: real, whole: real)
    requires whole > 0.0 && a + b + c + d == whole
    ensures a / whole * 100.0 + b / whole * 100.0 + c / whole * 100.0 + d / whole * 100.0 == 100.0
  {
    assert a / whole + b / whole + c / whole + d / whole == (a + b + c + d) / whole == 1.0;
  }

  /**
   * What a reading says: each column is its own counter's increase in percent of the interval, which is the
   * increase of the four counters together, or the total that the caller brought along.
   */
  lemma ColumnsAreIncreases(last: Ticks, now: Ticks, total: nat)
    requires (last.user != 0 || total > 0) && Advances(last, now) && now.wait >= last.wait && now.wait < WORD
    ensures var m := Measured(last, now, total);
            var ticks := if total > 0 then total
                         else now.user - last.user + (now.kernel - last.kernel) + (now.nice - last.nice)
                              + (now.idle - last.idle);
            if ticks == 0 then m == ZERO
            else && InPercent(m.u, now.user - last.user, ticks) && InPercent(m.s, now.kernel - last.kernel, ticks)
                 && InPercent(m.n, now.nice - last.nice, ticks) && InPercent(m.io, now.wait - last.wait, ticks)
  {
    SmallDoesNotWrap(now.user + now.kernel + now.nice + now.idle);
    SmallDoesNotWrap(last.user + last.kernel + last.nice + last.idle);
    var ticks := if total > 0 then total
                 else now.user - last.user + (now.kernel - last.kernel) + (now.nice - last.nice)
                      + (now.idle - last.idle);
    assert Elapsed(last, now, total) == ticks as real;
    if ticks > 0 {
      ShareIsPercent(now.user, last.user, ticks);
      ShareIsPercent(now.kernel, last.kernel, ticks);
      ShareIsPercent(now.nice, last.nice, ticks);
      ShareIsPercent(now.wait, last.wait, ticks);
    }
  }

  ghost predicate InPercent(share: real, part: int, whole: int) {
    share * whole as real == 100.0 * part as real
  }

  lemma ShareIsPercent(now: nat, last: nat, ticks: int)
    requires ticks > 0 && last <= now < WORD
    ensures InPercent(Share(now, last, ticks as real), now - last, ticks)
  {
    SmallDoesNotWrap(now - last);
    var part, whole := (now - last) as real, ticks as real;
    assert part / whole * whole == part;
    assert part / whole * 100.0 * whole == 100.0 * (part / whole * whole);
  }

  /** The first reading is compared with itself and says nothing. */
  lemma FirstReadingIsZero(last: Ticks, now: Ticks)
    requires last.user == 0
    ensures Measured(last, now, 0) == ZERO
  {
  }

  // ------------------------------------------------------------------
  // Database rows.
  // ------------------------------------------------------------------

  datatype Row = Row(level: nat, sampleID: int, time: real, values: Cpu)

  /** Empty rollups are kept in memory but not stored. */
  function RowsOf(x: nat, made: seq<Sample<Cpu>>): seq<Row> {
    if made == [] then []
    else (if made[0].empty then [] else [Row(x, made[0].sampleID, made[0].time, made[0].values)]) + RowsOf(x, made[1..])
  }

  lemma RowsOfCons(x: nat, s: Sample<Cpu>, rest: seq<Sample<Cpu>>)
    ensures RowsOf(x, [s] + rest) == RowsOf(x, [s]) + RowsOf(x, rest)
    ensures RowsOf(x, [s]) == if s.empty then [] else [Row(x, s.sampleID, s.time, s.values)]
  {
    assert ([s] + rest)[1..] == rest && [s][1..] == [];
  }

  /** A rollup becomes a row, with its own values, exactly if it is not empty; nothing else does. */
  lemma {:induction false} RowsAreSamples(x: nat, made: seq<Sample<Cpu>>, row: Row)
    ensures row in RowsOf(x, made) <==>
      row.level == x && Sample(row.values, row.sampleID, row.time, false) in made
  {
    if made != [] {
      RowsAreSamples(x, made[1..], row);
      var first := made[0];
      RowsOfCons(x, first, made[1..]);
      assert made == [first] + made[1..];
      assert row in RowsOf(x, [first]) <==>
        row.level == x && Sample(row.values, row.sampleID, row.time, false) == first;
    }
  }

  /** The rows one level queues in one pass. */
  function LevelRows(levels: seq<Level<Cpu>>, x: nat, now: real): seq<Row>
    requires Shaped(levels) && 1 <= x < LEVELS
  {
    assert WellBased(levels, x);
    var e := levels[x].entry;
    if levels[0].entry.time >= e.nextTime
    then RowsOf(x, Rollups(CPU, e, levels[e.historyIndex].deque, now, Earliest(now, e.interval)))
    else []
  }

  /** They are those of the rollups that the level gains in the pass and that are not empty. */
  lemma LevelRowsAreGains(levels: seq<Level<Cpu>>, x: nat, now: real, row: Row)
    requires Shaped(levels) && 1 <= x < LEVELS
    ensures row in LevelRows(levels, x, now) <==>
      row.level == x && Sample(row.values, row.sampleID, row.time, false) in Gained(CPU, levels, x, now)
  {
    assert WellBased(levels, x);
    var e, source := levels[x].entry, SourceOf(levels, x).deque;
    var made := Rollups(CPU, e, source, now, Earliest(now, e.interval));
    RowsAreSamples(x, made, row);
    ReversedMembers(made, Sample(row.values, row.sampleID, row.time, false));
  }

  function AsRows(x: nat, samples: seq<Sample<Cpu>>): seq<Row> {
    if samples == [] then []
    else [Row(x, samples[0].sampleID, samples[0].time, samples[0].values)] + AsRows(x, samples[1..])
  }

  lemma {:induction false} RowsAreStored(x: nat, made: seq<Sample<Cpu>>)
    ensures RowsOf(x, made) == AsRows(x, Persistence.Stored(made, false))
  {
    if made != [] {
      RowsAreStored(x, made[1..]);
      var rest := Persistence.Stored(made[1..], false);
      assert ([made[0]] + rest)[1..] == rest && [] + rest == rest;
    }
  }

  /**
   * What a pass of the collector does to one level and to the queue is what the model of stored history calls a
   * pass, so its results about restarts and keys are about this collector.
   */
  lemma PassIsStored(levels: seq<Level<Cpu>>, x: nat, now: real, config: Entry, store: Persistence.Store<Cpu>)
    requires Shaped(levels) && 1 <= x < LEVELS && config.interval >= 1.0
    requires store.level == levels[x] && store.level.entry.interval >= 1.0
    ensures var event := Persistence.HistoryPass(SourceOf(levels, x).deque, levels[0].entry.time, now, false);
            var after := Persistence.Step(CPU, config, store, event);
            var added := after.queue[|store.queue|..];
            && after.level == PassLevel(CPU, levels, x, now)[x] && after.table == store.table
            && after.queue == store.queue + added
            && LevelRows(levels, x, now) == AsRows(x, added)
  {
    assert WellBased(levels, x);
    var e, source, live := levels[x].entry, SourceOf(levels, x).deque, levels[0].entry.time;
    var stored := Persistence.Stored(Persistence.MadeBy(CPU, e, source, live, now), false);
    RowsAreStored(x, Rollups(CPU, e, source, now, Earliest(now, e.interval)));
    assert (store.queue + stored)[|store.queue|..] == stored;
  }

  function PassRows(levels: seq<Level<Cpu>>, x: nat, nows: seq<real>): seq<Row>
    requires Shaped(levels) && 1 <= x <= LEVELS && |nows| == LEVELS
    decreases LEVELS - x
  {
    if x == LEVELS then []
    else
      PassLevelShaped(CPU, levels, x, nows[x]);
      LevelRows(levels, x, nows[x]) + PassRows(PassLevel(CPU, levels, x, nows[x]), x + 1, nows)
  }

  // ------------------------------------------------------------------
  // The collector.
  // ------------------------------------------------------------------

  class StatsCPU {
    const sampleIndex: array<Entry>
    const samples: array<seq<Sample<Cpu>>>
    var last_ticks: Ticks
    var databaseQueue: seq<Row>
    /** Everything each level has received, and how much of it since start-up. */
    ghost var log: seq<seq<Sample<Cpu>>>
    ghost var made: seq<nat>

    ghost predicate Built()
      reads this
    {
      sampleIndex.Length == LEVELS && samples.Length == LEVELS && |log| == LEVELS && |made| == LEVELS
    }

    ghost function LevelAt(x: nat): Level<Cpu>
      requires Built() && x < LEVELS
      reads this, sampleIndex, samples
    {
      Level(sampleIndex[x], samples[x], log[x], made[x])
    }

    ghost function View(): (levels: seq<Level<Cpu>>)
      requires Built()
      reads this, sampleIndex, samples
      ensures |levels| == LEVELS && forall x | 0 <= x < LEVELS :: levels[x] == LevelAt(x)
    {
      seq(LEVELS, x requires 0 <= x < LEVELS && Built() reads this, sampleIndex, samples => LevelAt(x))
    }

    ghost predicate Valid()
      reads this, sampleIndex, samples
    {
      Built() && AllOrdered(View())
    }

    constructor ()
      ensures Built() && fresh(sampleIndex) && fresh(samples) && databaseQueue == []
      ensures Valid() && forall x | 0 <= x < LEVELS :: LevelAt(x) == Level(InitialEntry(x), [], [], 0)
    {
      var index := new Entry[LEVELS](x requires 0 <= x < LEVELS => InitialEntry(x));
      var deques := new seq<Sample<Cpu>>[LEVELS](_ => []);
      sampleIndex, samples := index, deques;
      last_ticks := Ticks(0, 0, 0, 0, 0);
      databaseQueue := [];
      log := seq(LEVELS, _ => []);
      made := seq(LEVELS, _ => 0);
      new;
      ConfiguredIsShaped(View());
    }

    method PrepareUpdate()
      requires Built()
      modifies sampleIndex
      ensures Built()
      ensures View() == old(View())[0 := old(LevelAt(0)).(entry := old(sampleIndex[0]).(
        time := old(sampleIndex[0]).nextTime, sampleID := old(sampleIndex[0]).sampleID + 1))]
    {
      sampleIndex[0] := sampleIndex[0].(time := sampleIndex[0].nextTime);
      sampleIndex[0] := sampleIndex[0].(sampleID := sampleIndex[0].sampleID + 1);
    }

    method PushSample(x: nat, s: Sample<Cpu>)
      requires Built() && x < LEVELS
      modifies this`log, this`made, samples
      ensures Built() && View() == old(View())[x := Receive(old(LevelAt(x)), s)]
    {
      samples[x] := [s] + samples[x];
      if |samples[x]| > HISTORY_SIZE {
        samples[x] := samples[x][..|samples[x]| - 1];
      }
      log := log[x := [s] + log[x]];
      made := made[x := made[x] + 1];
      assert samples[x] == Push(old(samples[x]), s);
      assert LevelAt(x) == Receive(old(LevelAt(x)), s);
    }

    method ProcessSample(now: Ticks, total: nat)
      requires Built()
      modifies this`log, this`made, this`last_ticks, samples
      ensures Built() && last_ticks == if total == 0 then now else old(last_ticks)
      ensures View() == old(View())[0 := Receive(old(LevelAt(0)),
        Sample(Measured(old(last_ticks), now, total), old(sampleIndex[0]).sampleID, old(sampleIndex[0]).time, false))]
    {
      var ticks: real;
      if total > 0 {
        ticks := total as real;
      } else {
        if last_ticks.user == 0 {
          last_ticks := now;
        }
        ticks := Busy(now) as real - Busy(last_ticks) as real;
      }
      var cpu := Cpu(0.0, 0.0, 0.0, 0.0);
      if ticks > 0.0 {
        cpu := Cpu(Wrap(now.user - last_ticks.user) as real / ticks * 100.0,
                   Wrap(now.kernel - last_ticks.kernel) as real / ticks * 100.0,
                   Wrap(now.nice - last_ticks.nice) as real / ticks * 100.0,
                   Wrap(now.wait - last_ticks.wait) as real / ticks * 100.0);
      }
      if total == 0 {
        last_ticks := now;
      }
      PushSample(0, Sample(cpu, sampleIndex[0].sampleID, sampleIndex[0].time, false));
    }

    /** The mean of the source deque over the window of the level's index. */
    method HistoryItemAtIndex(x: nat) returns (sample: Sample<Cpu>)
      requires Valid() && 1 <= x < LEVELS && sampleIndex[x].historyIndex < x
      ensures sample == Rollup(CPU, sampleIndex[x], samples[sampleIndex[x].historyIndex])
    {
      var e := sampleIndex[x];
      var from := samples[e.historyIndex];
      var minimumTime := e.time - e.interval;
      var maximumTime := e.time;
      if e.historyIndex == 0 {
        maximumTime := maximumTime + 0.99;
      }
      DequeSpaced(e.historyIndex);
      var total, count := ScanWindow(from, minimumTime, maximumTime, sampleIndex[e.historyIndex].interval);
      if count > 0 {
        total := Cpu(total.u / count as real, total.s / count as real, total.n / count as real,
          total.io / count as real);
      }
      sample := Sample(total, e.sampleID, e.time, count == 0);
    }

    lemma DequeSpaced(y: nat)
      requires Valid() && y < LEVELS
      ensures Spaced(samples[y], sampleIndex[y].interval) && sampleIndex[y].interval >= 1.0
    {
      var level := View()[y];
      assert level == LevelAt(y);
      if y > 0 {
        assert Ordered(level) && WellBased(View(), y);
      }
      PrefixSpaced(level.deque, level.log, level.entry.interval);
    }

    /** The deque that level x is built from. */
    ghost function SourceDeque(x: nat): seq<Sample<Cpu>>
      requires Valid() && 1 <= x < LEVELS
      reads this, sampleIndex, samples
    {
      SourceOf(View(), x).deque
    }

    lemma IndexShape(x: nat)
      requires Valid() && 1 <= x < LEVELS
      ensures sampleIndex[x].interval >= 1.0 && sampleIndex[x].historyIndex < x
      ensures SourceDeque(x) == samples[sampleIndex[x].historyIndex]
    {
      assert WellBased(View(), x) && View()[x] == LevelAt(x);
    }

    method Advance(x: nat)
      requires Valid() && 1 <= x < LEVELS
      modifies sampleIndex
      ensures Valid() && View() == old(View())[x := old(LevelAt(x)).(entry := Next(old(sampleIndex[x])))]
    {
      ghost var levels := View();
      IndexShape(x);
      sampleIndex[x] := sampleIndex[x].(sampleID := sampleIndex[x].sampleID + 1);
      sampleIndex[x] := sampleIndex[x].(time := sampleIndex[x].nextTime);
      sampleIndex[x] := sampleIndex[x].(nextTime := sampleIndex[x].nextTime + sampleIndex[x].interval);
      ghost var next := levels[x].(entry := Next(levels[x].entry));
      assert LevelAt(x) == next;
      assert View() == levels[x := next];
      assert Ordered(levels[x]);
      ReplaceShaped(levels, x, next);
      ReplaceOrdered(levels, x, next);
    }

    /** Keeps a new rollup of level x, and queues its row unless it is empty. */
    method Store(x: nat, sample: Sample<Cpu>)
      requires Built() && x < LEVELS
      modifies this`log, this`made, this`databaseQueue, samples
      ensures Built() && View() == old(View())[x := Receive(old(LevelAt(x)), sample)]
      ensures databaseQueue == old(databaseQueue) + RowsOf(x, [sample])
    {
      RowsOfCons(x, sample, []);
      PushSample(x, sample);
      if sample.empty {
        return;
      }
      databaseQueue := databaseQueue + [Row(x, sample.sampleID, sample.time, sample.values)];
    }

    /** One round of the catch-up loop. */
    method DoRound(x: nat, earliest: real)
      requires Valid() && 1 <= x < LEVELS
      modifies this`log, this`made, this`databaseQueue, sampleIndex, samples
      ensures Valid()
      ensures View() == old(View())[x := Round(CPU, old(LevelAt(x)), old(SourceDeque(x)), earliest)]
      ensures databaseQueue == old(databaseQueue) + RoundRows(x, old(sampleIndex[x]), old(SourceDeque(x)), earliest)
    {
      ghost var levels, source := View(), SourceDeque(x);
      IndexShape(x);
      RoundOrdered(CPU, levels[x], source, earliest);
      Advance(x);
      if sampleIndex[x].time < earliest {
        assert databaseQueue + [] == databaseQueue;
        assert LevelAt(x) == View()[x];
        return;
      }
      IndexShape(x);
      assert samples[sampleIndex[x].historyIndex] == source;
      var sample := HistoryItemAtIndex(x);
      ghost var grown := Round(CPU, levels[x], source, earliest);
      assert grown == Receive(LevelAt(x), sample);
      Store(x, sample);
      assert View() == levels[x := grown];
      ReplaceShaped(levels, x, grown);
      ReplaceOrdered(levels, x, grown);
    }

    /** The catch-up loop of one level. */
    method CatchUp(x: nat, now: real)
      requires Valid() && 1 <= x < LEVELS
      modifies this`log, this`made, this`databaseQueue, sampleIndex, samples
      ensures Valid()
      ensures View() == PassLevel(CPU, old(View()), x, now)
      ensures databaseQueue == old(databaseQueue) + LevelRows(old(View()), x, now)
    {
      ghost var levels, source := View(), SourceDeque(x);
      IndexShape(x);
      if sampleIndex[0].time < sampleIndex[x].nextTime {
        NothingDue(levels, x, now);
        assert databaseQueue + [] == databaseQueue;
        return;
      }
      var earliest := now - HISTORY_SIZE as real * sampleIndex[x].interval;
      ghost var whole, rows := PassBegins(levels, x, now, databaseQueue);
      LoopBegins(x, levels, source, now, earliest, whole, rows);
      RunLoop(x, levels, source, now, earliest, whole, rows);
    }

    method RunLoop(x: nat, ghost levels: seq<Level<Cpu>>, ghost source: seq<Sample<Cpu>>, now: real, earliest: real,
                   ghost whole: Level<Cpu>, ghost rows: seq<Row>)
      requires Halfway(x, levels, source, now, earliest, whole, rows)
      modifies this`log, this`made, this`databaseQueue, sampleIndex, samples
      ensures Valid() && View() == levels[x := whole] && databaseQueue == rows
    {
      while sampleIndex[x].nextTime < now
        invariant Halfway(x, levels, source, now, earliest, whole, rows)
        decreases Distance(sampleIndex[x], now)
      {
        NextRound(x, levels, source, now, earliest, whole, rows);
      }
      LoopEnds(x, levels, source, now, earliest, whole, rows);
    }

    lemma LoopBegins(x: nat, levels: seq<Level<Cpu>>, source: seq<Sample<Cpu>>, now: real, earliest: real,
                     whole: Level<Cpu>, rows: seq<Row>)
      requires Valid() && 1 <= x < LEVELS && levels == View() && source == SourceDeque(x)
      requires InProgress(x, levels[x], databaseQueue, source, now, earliest, whole, rows)
      ensures Halfway(x, levels, source, now, earliest, whole, rows)
    {
      assert levels[x := levels[x]][x := levels[x]] == levels;
      HalfwayOn(x, levels, levels[x], levels[x], source, now, earliest, whole, rows);
    }

    lemma LoopEnds(x: nat, levels: seq<Level<Cpu>>, source: seq<Sample<Cpu>>, now: real, earliest: real,
                   whole: Level<Cpu>, rows: seq<Row>)
      requires Halfway(x, levels, source, now, earliest, whole, rows) && sampleIndex[x].nextTime >= now
      ensures View() == levels[x := whole] && databaseQueue == rows
    {
      assert LevelAt(x).entry == sampleIndex[x];
      assert databaseQueue + [] == databaseQueue;
    }

    /** The state of the catch-up loop of level x: the other levels are untouched. */
    ghost predicate Halfway(x: nat, levels: seq<Level<Cpu>>, source: seq<Sample<Cpu>>, now: real, earliest: real,
                            whole: Level<Cpu>, rows: seq<Row>)
      reads this, sampleIndex, samples
    {
      && Valid() && Shaped(levels) && 1 <= x < LEVELS
      && View() == levels[x := LevelAt(x)] && SourceDeque(x) == source
      && sampleIndex[x].historyIndex == levels[x].entry.historyIndex
      && InProgress(x, LevelAt(x), databaseQueue, source, now, earliest, whole, rows)
    }

    method NextRound(x: nat, ghost levels: seq<Level<Cpu>>, ghost source: seq<Sample<Cpu>>, now: real,
                     earliest: real, ghost whole: Level<Cpu>, ghost rows: seq<Row>)
      requires Halfway(x, levels, source, now, earliest, whole, rows) && sampleIndex[x].nextTime < now
      modifies this`log, this`made, this`databaseQueue, sampleIndex, samples
      ensures Halfway(x, levels, source, now, earliest, whole, rows)
      ensures Distance(sampleIndex[x], now) < old(Distance(sampleIndex[x], now))
    {
      ghost var level := LevelAt(x);
      ghost var next := Round(CPU, level, source, earliest);
      assert next.entry == Next(level.entry);
      NextIsCloser(level.entry, now);
      ProgressStep(x, level, databaseQueue, source, now, earliest, whole, rows);
      SameSource(levels, x, level);
      DoRound(x, earliest);
      HalfwayOn(x, levels, level, next, source, now, earliest, whole, rows);
    }

    lemma HalfwayOn(x: nat, levels: seq<Level<Cpu>>, level: Level<Cpu>, next: Level<Cpu>, source: seq<Sample<Cpu>>,
                    now: real, earliest: real, whole: Level<Cpu>, rows: seq<Row>)
      requires Valid() && Shaped(levels) && 1 <= x < LEVELS && View() == levels[x := level][x := next]
      requires next.entry.historyIndex == levels[x].entry.historyIndex && source == SourceOf(levels, x).deque
      requires InProgress(x, next, databaseQueue, source, now, earliest, whole, rows)
      ensures Halfway(x, levels, source, now, earliest, whole, rows) && LevelAt(x) == next
    {
      assert LevelAt(x) == View()[x] == next;
      assert View() == levels[x := next];
      SameSource(levels, x, next);
    }

    lemma SameSource(levels: seq<Level<Cpu>>, x: nat, next: Level<Cpu>)
      requires Valid() && Shaped(levels) && 1 <= x < LEVELS && View() == levels[x := next]
      requires next.entry.historyIndex == levels[x].entry.historyIndex
      ensures SourceDeque(x) == SourceOf(levels, x).deque
    {
      assert WellBased(levels, x);
    }

    /** `updateHistory`; `nows` are its clock readings, one for each level. */
    method UpdateHistory(nows: seq<real>)
      requires Valid() && |nows| == LEVELS
      modifies this`log, this`made, this`databaseQueue, sampleIndex, samples
      ensures Valid()
      ensures View() == Pass(CPU, old(View()), 1, nows)
      ensures databaseQueue == old(databaseQueue) + PassRows(old(View()), 1, nows)
    {
      ghost var levels := View();
      var x := 1;
      while x < LEVELS
        invariant 1 <= x <= LEVELS && Valid()
        invariant Pass(CPU, View(), x, nows) == Pass(CPU, levels, 1, nows)
        invariant databaseQueue + PassRows(View(), x, nows) == old(databaseQueue) + PassRows(levels, 1, nows)
      {
        PassLevelShaped(CPU, View(), x, nows[x]);
        AppendAll(databaseQueue, LevelRows(View(), x, nows[x]),
                  PassRows(PassLevel(CPU, View(), x, nows[x]), x + 1, nows));
        CatchUp(x, nows[x]);
        x := x + 1;
      }
    }

    /** A whole tick: the scheduler's time, a reading, and the history pass. */
    method Update(t: real, now: Ticks, total: nat, nows: seq<real>)
      requires Valid() && |nows| == LEVELS && t >= sampleIndex[0].time + 1.0
      modifies this`log, this`made, this`databaseQueue, this`last_ticks, sampleIndex, samples
      ensures Valid()
      ensures View() == Tick(CPU, old(View()), t, Some(Measured(old(last_ticks), now, total)), nows)
      ensures last_ticks == if total == 0 then now else old(last_ticks)
      ensures var live := LiveSample(old(View()), t, Some(Measured(old(last_ticks), now, total)));
              Shaped(live) && databaseQueue == old(databaseQueue) + PassRows(live, 1, nows)
    {
      ghost var levels, values := View(), Measured(last_ticks, now, total);
      sampleIndex[0] := sampleIndex[0].(nextTime := t);
      PrepareUpdate();
      ProcessSample(now, total);
      assert View() == LiveSample(levels, t, Some(values));
      LiveSampleOrdered(levels, t, Some(values));
      UpdateHistory(nows);
    }
  }

  lemma AppendAll<T>(a: seq<T>, b: seq<T>, c: seq<T>)
    ensures (a + b) + c == a + (b + c)
  {
  }

  /** What one round queues. */
  ghost function RoundRows(x: nat, e: Entry, source: seq<Sample<Cpu>>, earliest: real): seq<Row> {
    if Next(e).time < earliest then [] else RowsOf(x, [Rollup(CPU, Next(e), source)])
  }

  /** What the rest of the loop will do completes what it has done. */
  ghost predicate InProgress(
    x: nat, level: Level<Cpu>, queue: seq<Row>, source: seq<Sample<Cpu>>, now: real, earliest: real,
    whole: Level<Cpu>, rows: seq<Row>)
  {
    && level.entry.interval >= 1.0
    && CaughtUp(CPU, level, source, now, earliest) == whole
    && queue + RowsOf(x, Rollups(CPU, level.entry, source, now, earliest)) == rows
  }

  lemma NothingDue(levels: seq<Level<Cpu>>, x: nat, now: real)
    requires Shaped(levels) && 1 <= x < LEVELS && levels[0].entry.time < levels[x].entry.nextTime
    ensures PassLevel(CPU, levels, x, now) == levels && LevelRows(levels, x, now) == []
  {
    assert levels[x := levels[x]] == levels;
  }

  /** What the loop at a level that is due will have done. */
  lemma PassBegins(levels: seq<Level<Cpu>>, x: nat, now: real, queue: seq<Row>)
    returns (whole: Level<Cpu>, rows: seq<Row>)
    requires Shaped(levels) && 1 <= x < LEVELS && levels[0].entry.time >= levels[x].entry.nextTime
    ensures PassLevel(CPU, levels, x, now) == levels[x := whole] && rows == queue + LevelRows(levels, x, now)
    ensures InProgress(x, levels[x], queue, SourceOf(levels, x).deque, now, Earliest(now, levels[x].entry.interval),
                       whole, rows)
  {
    assert WellBased(levels, x);
    whole := CaughtUp(CPU, levels[x], SourceOf(levels, x).deque, now, Earliest(now, levels[x].entry.interval));
    rows := queue + LevelRows(levels, x, now);
  }

  lemma ProgressStep(
    x: nat, level: Level<Cpu>, queue: seq<Row>, source: seq<Sample<Cpu>>, now: real, earliest: real,
    whole: Level<Cpu>, rows: seq<Row>)
    requires InProgress(x, level, queue, source, now, earliest, whole, rows) && level.entry.nextTime < now
    ensures InProgress(x, Round(CPU, level, source, earliest), queue + RoundRows(x, level.entry, source, earliest),
                       source, now, earliest, whole, rows)
  {
    NextIsCloser(level.entry, now);
    var n := Next(level.entry);
    var rest := Rollups(CPU, n, source, now, earliest);
    if n.time < earliest {
      assert [] + rest == rest;
      assert queue + [] == queue;
    } else {
      RowsOfCons(x, Rollup(CPU, n, source), rest);
      AppendAll(queue, RowsOf(x, [Rollup(CPU, n, source)]), RowsOf(x, rest));
    }
  }

  /** The loop over a deque, newest first, with its `continue` above the window and its early `break` below it. */
  method ScanWindow(from: seq<Sample<Cpu>>, low: real, high: real, ghost gap: real) returns (total: Cpu, count: nat)
    requires Spaced(from, gap) && gap >= 0.0
    ensures total == Total(CPU, Window(from, low, high)) && count == |Window(from, low, high)|
  {
    var cpuUser, cpuSystem, cpuNice, cpuIO := 0.0, 0.0, 0.0, 0.0;
    count := 0;
    var i := 0;
    ghost var window := [];
    while i < |from|
      invariant 0 <= i <= |from|
      invariant window == Window(from[..i], low, high) && count == |window|
      invariant Cpu(cpuUser, cpuSystem, cpuNice, cpuIO) == Total(CPU, window)
    {
      var cur := from[i];
      WindowStep(from, i, low, high);
      i := i + 1;
      if cur.time > high {
        continue;
      }
      if cur.time < low {
        WindowStops(from, gap, i - 1, low, high);
        assert Window(from, low, high) == window;
        return Cpu(cpuUser, cpuSystem, cpuNice, cpuIO), count;
      }
      TotalStep(CPU, window, cur);
      window := window + [cur];
      cpuUser := cpuUser + cur.values.u;
      cpuSystem := cpuSystem + cur.values.s;
      cpuNice := cpuNice + cur.values.n;
      cpuIO := cpuIO + cur.values.io;
      count := count + 1;
    }
    assert from[..i] == from;
    return Cpu(cpuUser, cpuSystem, cpuNice, cpuIO), count;
  }
}
