/** The rollup pyramid of one collector: sample indexes, windows, means, bounded deques and catch-up. */
module Levels {

  const HISTORY_SIZE: nat := 600
  const LEVELS: nat := 8

  /** One `sampleindexconfig`: the running id and times of a level, and the level it is built from. */
  datatype Entry = Entry(sampleID: int, time: real, nextTime: real, interval: real, historyIndex: nat)

  datatype Sample<V> = Sample(values: V, sampleID: int, time: real, empty: bool)

  /** Addition of measurements, and division by a count. */
  datatype Arithmetic<!V> = Arithmetic(zero: V, add: (V, V) -> V, over: (V, nat) -> V)

  function Intervals(): seq<real> {
    [1.0, 6.0, 144.0, 1008.0, 4320.0, 12960.0, 25920.0, 52560.0]
  }

  function Sources(): seq<nat> {
    [0, 0, 1, 1, 2, 2, 2, 2]
  }

  function InitialEntry(x: nat): Entry
    requires x < LEVELS
  {
    Entry(1, 0.0, 0.0, Intervals()[x], Sources()[x])
  }

  // ------------------------------------------------------------------
  // Means over time windows.
  // ------------------------------------------------------------------

  predicate Inside(t: real, low: real, high: real) {
    low <= t <= high
  }

  /** The samples of a window, in the order of the log (newest first). */
  function Window<V>(log: seq<Sample<V>>, low: real, high: real): seq<Sample<V>> {
    if log == [] then []
    else
      var last := log[|log| - 1];
      Window(log[..|log| - 1], low, high) + if Inside(last.time, low, high) then [last] else []
  }

  function Total<V>(arithmetic: Arithmetic<V>, samples: seq<Sample<V>>): V {
    if samples == [] then arithmetic.zero
    else arithmetic.add(Total(arithmetic, samples[..|samples| - 1]), samples[|samples| - 1].values)
  }

  lemma WindowStep<V>(log: seq<Sample<V>>, i: nat, low: real, high: real)
    requires i < |log|
    ensures Window(log[..i + 1], low, high) ==
      Window(log[..i], low, high) + if Inside(log[i].time, low, high) then [log[i]] else []
  {
    assert log[..i + 1][..i] == log[..i];
  }

  lemma TotalStep<V>(arithmetic: Arithmetic<V>, samples: seq<Sample<V>>, s: Sample<V>)
    ensures Total(arithmetic, samples + [s]) == arithmetic.add(Total(arithmetic, samples), s.values)
  {
    assert (samples + [s])[..|samples|] == samples;
  }

  function Mean<V>(arithmetic: Arithmetic<V>, samples: seq<Sample<V>>): V {
    if samples == [] then arithmetic.zero else arithmetic.over(Total(arithmetic, samples), |samples|)
  }

  function Low(e: Entry): real {
    e.time - e.interval
  }

  /** A little slack for live samples, none for rollups. */
  function High(e: Entry): real {
    if e.historyIndex == 0 then e.time + 0.99 else e.time
  }

  /** The rollup of an entry: the mean of its source over the entry's window. */
  function Rollup<V>(arithmetic: Arithmetic<V>, e: Entry, source: seq<Sample<V>>): Sample<V> {
    var window := Window(source, Low(e), High(e));
    Sample(Mean(arithmetic, window), e.sampleID, e.time, window == [])
  }

  // ------------------------------------------------------------------
  // Logs, newest first, and the deques that keep their newest part.
  // ------------------------------------------------------------------

  /** Each sample is at least `gap` newer than the next, and has a larger id. */
  ghost predicate Spaced<V>(log: seq<Sample<V>>, gap: real) {
    forall i | 0 <= i < |log| - 1 :: log[i].time >= log[i + 1].time + gap && log[i].sampleID > log[i + 1].sampleID
  }

  /** The deque is the newest part of the log, and has lost nothing while it was within its bound. */
  ghost predicate Keeps<V>(deque: seq<Sample<V>>, log: seq<Sample<V>>) {
    deque <= log && (|deque| == |log| || |deque| >= HISTORY_SIZE)
  }

  /** push_front, then pop_back when over the bound. */
  function Push<V>(deque: seq<Sample<V>>, s: Sample<V>): seq<Sample<V>> {
    if |deque| + 1 > HISTORY_SIZE then [s] + deque[..|deque| - 1] else [s] + deque
  }

  lemma PrefixSpaced<V>(deque: seq<Sample<V>>, log: seq<Sample<V>>, gap: real)
    requires deque <= log && Spaced(log, gap)
    ensures Spaced(deque, gap)
  {
    forall i | 0 <= i < |deque| - 1
      ensures deque[i].time >= deque[i + 1].time + gap && deque[i].sampleID > deque[i + 1].sampleID
    {
      assert deque[i] == log[i] && deque[i + 1] == log[i + 1];
    }
  }

  lemma PushKeeps<V>(deque: seq<Sample<V>>, log: seq<Sample<V>>, s: Sample<V>)
    requires Keeps(deque, log)
    ensures Keeps(Push(deque, s), [s] + log)
    ensures |Push(deque, s)| == if |deque| < HISTORY_SIZE then |deque| + 1 else |deque|
  {
    assert [s] + deque <= [s] + log;
  }

  lemma PushSpaced<V>(log: seq<Sample<V>>, gap: real, s: Sample<V>)
    requires Spaced(log, gap)
    requires log != [] ==> s.time >= log[0].time + gap && s.sampleID > log[0].sampleID
    ensures Spaced([s] + log, gap)
  {
    var longer := [s] + log;
    forall i | 0 <= i < |longer| - 1
      ensures longer[i].time >= longer[i + 1].time + gap && longer[i].sampleID > longer[i + 1].sampleID
    {
      if i > 0 {
        assert longer[i] == log[i - 1] && longer[i + 1] == log[i];
      }
    }
  }

  /** Gaps add up. */
  lemma {:induction false} SpacedFar<V>(log: seq<Sample<V>>, gap: real, i: nat, j: nat)
    requires Spaced(log, gap) && gap >= 0.0 && i <= j < |log|
    ensures log[i].time - log[j].time >= gap * (j - i) as real
    ensures i < j ==> log[i].sampleID > log[j].sampleID
    decreases j - i
  {
    if i < j {
      SpacedFar(log, gap, i, j - 1);
      assert gap * (j - i) as real == gap * (j - 1 - i) as real + gap;
    }
  }

  lemma {:induction false} WindowSplit<V>(older: seq<Sample<V>>, newer: seq<Sample<V>>, low: real, high: real)
    ensures Window(newer + older, low, high) == Window(newer, low, high) + Window(older, low, high)
    decreases |older|
  {
    if older == [] {
      assert newer + older == newer;
    } else {
      var front := older[..|older| - 1];
      assert (newer + older)[..|newer + older| - 1] == newer + front;
      WindowSplit(front, newer, low, high);
    }
  }

  lemma {:induction false} WindowEmpty<V>(log: seq<Sample<V>>, low: real, high: real)
    requires forall i | 0 <= i < |log| :: !Inside(log[i].time, low, high)
    ensures Window(log, low, high) == []
  {
    if log != [] {
      WindowEmpty(log[..|log| - 1], low, high);
    }
  }

  /** Once a log has fallen below a window, nothing further on is in it: the early `break` is safe. */
  lemma WindowStops<V>(log: seq<Sample<V>>, gap: real, k: nat, low: real, high: real)
    requires Spaced(log, gap) && gap >= 0.0 && k <= |log| && (k < |log| ==> log[k].time < low)
    ensures Window(log, low, high) == Window(log[..k], low, high)
  {
    var older := log[k..];
    forall i | 0 <= i < |older| ensures !Inside(older[i].time, low, high) {
      SpacedFar(log, gap, k, k + i);
      assert gap * i as real >= 0.0;
    }
    WindowEmpty(older, low, high);
    assert log == log[..k] + older;
    WindowSplit(older, log[..k], low, high);
  }

  /** Nothing that a window needs has been evicted. */
  ghost predicate Covers<V>(deque: seq<Sample<V>>, log: seq<Sample<V>>, low: real) {
    |deque| < |log| ==> log[|deque|].time < low
  }

  /** A rollup built from the bounded deque is the rollup over the whole log, if nothing it needs is gone. */
  lemma RollupFromDeque<V>(arithmetic: Arithmetic<V>, e: Entry, deque: seq<Sample<V>>, log: seq<Sample<V>>, gap: real)
    requires Keeps(deque, log) && Spaced(log, gap) && gap >= 0.0 && Covers(deque, log, Low(e))
    ensures Rollup(arithmetic, e, deque) == Rollup(arithmetic, e, log)
  {
    WindowStops(log, gap, |deque|, Low(e), High(e));
    assert log[..|deque|] == deque;
  }

  /** 600 source intervals reach back far enough for any window that starts within them. */
  lemma RecentWindowsAreCovered<V>(deque: seq<Sample<V>>, log: seq<Sample<V>>, gap: real, low: real)
    requires Keeps(deque, log) && Spaced(log, gap) && gap >= 0.0
    requires log != [] ==> log[0].time < low + gap * HISTORY_SIZE as real
    ensures Covers(deque, log, low)
  {
    if |deque| < |log| {
      SpacedFar(log, gap, 0, |deque|);
      assert gap * |deque| as real >= gap * HISTORY_SIZE as real;
    }
  }

  // ------------------------------------------------------------------
  // Catching up.
  // ------------------------------------------------------------------

  function Next(e: Entry): Entry {
    e.(sampleID := e.sampleID + 1, time := e.nextTime, nextTime := e.nextTime + e.interval)
  }

  ghost function Distance(e: Entry, now: real): nat {
    if e.nextTime < now then (now - e.nextTime).Floor + 1 else 0
  }

  lemma NextIsCloser(e: Entry, now: real)
    requires e.interval >= 1.0 && e.nextTime < now
    ensures Distance(Next(e), now) < Distance(e, now)
  {
    var d := now - e.nextTime;
    assert (d - e.interval).Floor as real <= d - 1.0 < d.Floor as real;
  }

  /** Where a level's index stands after catching up with `now`. */
  function Advanced(e: Entry, now: real): Entry
    requires e.interval >= 1.0
    decreases Distance(e, now)
  {
    if e.nextTime < now then
      NextIsCloser(e, now);
      Advanced(Next(e), now)
    else e
  }

  /** The rollups made on the way, oldest first; those too old to keep are skipped. */
  function Rollups<V>(
    arithmetic: Arithmetic<V>, e: Entry, source: seq<Sample<V>>, now: real, earliest: real): seq<Sample<V>>
    requires e.interval >= 1.0
    decreases Distance(e, now)
  {
    if e.nextTime < now then
      NextIsCloser(e, now);
      var n := Next(e);
      (if n.time < earliest then [] else [Rollup(arithmetic, n, source)])
      + Rollups(arithmetic, n, source, now, earliest)
    else []
  }

  function Reversed<T>(s: seq<T>): seq<T> {
    if s == [] then [] else Reversed(s[1..]) + [s[0]]
  }

  /** The time at which the level's grid carries a given id. */
  function GridTime(e: Entry, id: int): real {
    e.nextTime + e.interval * (id - e.sampleID - 1) as real
  }

  /** The constant that ties ids to times. */
  function Origin(e: Entry): real {
    e.nextTime - e.interval * e.sampleID as real
  }

  lemma GridFromOrigin(e: Entry, id: int)
    ensures GridTime(e, id) == Origin(e) + e.interval * (id - 1) as real
  {
    assert e.interval * (id - e.sampleID - 1) as real
        == e.interval * (id - 1) as real - e.interval * e.sampleID as real;
  }

  lemma NextKeepsOrigin(e: Entry)
    ensures Origin(Next(e)) == Origin(e)
  {
    assert e.interval * (e.sampleID + 1) as real == e.interval * e.sampleID as real + e.interval;
  }

  /** However long the stall, catching up ends just past `now`, on the same grid. */
  lemma {:induction false} AdvancedFacts(e: Entry, now: real)
    requires e.interval >= 1.0
    ensures var a := Advanced(e, now);
            && a.interval == e.interval && a.historyIndex == e.historyIndex
            && Origin(a) == Origin(e)
            && a.nextTime >= now && a.sampleID >= e.sampleID && a.nextTime >= e.nextTime
            && (e.nextTime < now ==> a.nextTime < now + e.interval && a.sampleID > e.sampleID
                                     && a.time == a.nextTime - a.interval && a.time < now)
            && (e.nextTime >= now ==> a == e)
    decreases Distance(e, now)
  {
    if e.nextTime < now {
      NextIsCloser(e, now);
      NextKeepsOrigin(e);
      AdvancedFacts(Next(e), now);
    }
  }

  /** A rollup of one pass: its place on the grid, its window, and what it is the rollup of. */
  ghost predicate MadeIn<V>(
    arithmetic: Arithmetic<V>, e: Entry, source: seq<Sample<V>>, now: real, earliest: real, s: Sample<V>)
    requires e.interval >= 1.0
  {
    var a := Advanced(e, now);
    && s == Rollup(arithmetic, e.(sampleID := s.sampleID, time := s.time), source)
    && earliest <= s.time < now && s.time >= e.nextTime
    && e.sampleID < s.sampleID <= a.sampleID
    && s.time + e.interval <= a.nextTime
    && s.time == GridTime(e, s.sampleID)
  }

  /** Oldest first, at least `gap` apart. */
  ghost predicate Ascending<V>(made: seq<Sample<V>>, gap: real) {
    forall i | 0 <= i < |made| - 1 ::
      made[i + 1].time >= made[i].time + gap && made[i + 1].sampleID > made[i].sampleID
  }

  ghost predicate PassOf<V>(
    arithmetic: Arithmetic<V>, e: Entry, source: seq<Sample<V>>, now: real, earliest: real, made: seq<Sample<V>>)
    requires e.interval >= 1.0
  {
    Ascending(made, e.interval) && forall s | s in made :: MadeIn(arithmetic, e, source, now, earliest, s)
  }

  lemma NextGrid(e: Entry, id: int)
    ensures GridTime(Next(e), id) == GridTime(e, id)
  {
    GridFromOrigin(e, id);
    GridFromOrigin(Next(e), id);
    NextKeepsOrigin(e);
  }

  lemma MadeInNext<V>(
    arithmetic: Arithmetic<V>, e: Entry, source: seq<Sample<V>>, now: real, earliest: real, s: Sample<V>)
    requires e.interval >= 1.0 && e.nextTime < now && MadeIn(arithmetic, Next(e), source, now, earliest, s)
    ensures MadeIn(arithmetic, e, source, now, earliest, s)
  {
    NextIsCloser(e, now);
    NextGrid(e, s.sampleID);
    assert Next(e).(sampleID := s.sampleID, time := s.time, nextTime := e.nextTime)
        == e.(sampleID := s.sampleID, time := s.time);
  }

  lemma FirstMade<V>(arithmetic: Arithmetic<V>, e: Entry, source: seq<Sample<V>>, now: real, earliest: real)
    requires e.interval >= 1.0 && earliest <= e.nextTime < now
    ensures MadeIn(arithmetic, e, source, now, earliest, Rollup(arithmetic, Next(e), source))
  {
    NextIsCloser(e, now);
    AdvancedFacts(Next(e), now);
    assert Next(e).(nextTime := e.nextTime) == e.(sampleID := Next(e).sampleID, time := Next(e).time);
    assert e.interval * (Next(e).sampleID - e.sampleID - 1) as real == 0.0;
  }

  lemma {:induction false} RollupsFormPass<V>(
    arithmetic: Arithmetic<V>, e: Entry, source: seq<Sample<V>>, now: real, earliest: real)
    requires e.interval >= 1.0
    ensures PassOf(arithmetic, e, source, now, earliest, Rollups(arithmetic, e, source, now, earliest))
    decreases Distance(e, now)
  {
    if e.nextTime < now {
      NextIsCloser(e, now);
      RollupsFormPass(arithmetic, Next(e), source, now, earliest);
      var rest := Rollups(arithmetic, Next(e), source, now, earliest);
      forall s | s in rest ensures MadeIn(arithmetic, e, source, now, earliest, s) {
        MadeInNext(arithmetic, e, source, now, earliest, s);
      }
      if e.nextTime >= earliest {
        FirstMade(arithmetic, e, source, now, earliest);
        var first := Rollup(arithmetic, Next(e), source);
        assert Rollups(arithmetic, e, source, now, earliest) == [first] + rest;
        assert rest != [] ==> rest[0] in rest;
      } else {
        assert Rollups(arithmetic, e, source, now, earliest) == rest;
      }
    }
  }

  lemma {:induction false} PassSpan<V>(made: seq<Sample<V>>, gap: real, i: nat, j: nat)
    requires Ascending(made, gap) && i <= j < |made|
    ensures made[j].time - made[i].time >= gap * (j - i) as real
    decreases j - i
  {
    if i < j {
      PassSpan(made, gap, i, j - 1);
      assert gap * (j - i) as real == gap * (j - 1 - i) as real + gap;
    }
  }

  /** One pass builds at most 600 rollups, no matter how far behind it starts. */
  lemma PassIsBounded<V>(arithmetic: Arithmetic<V>, e: Entry, source: seq<Sample<V>>, now: real)
    requires e.interval >= 1.0
    ensures |Rollups(arithmetic, e, source, now, now - HISTORY_SIZE as real * e.interval)| <= HISTORY_SIZE
  {
    var earliest := now - HISTORY_SIZE as real * e.interval;
    var made := Rollups(arithmetic, e, source, now, earliest);
    RollupsFormPass(arithmetic, e, source, now, earliest);
    if made != [] {
      assert made[0] in made && made[|made| - 1] in made;
      SpanIsBounded(made, e.interval, earliest, now);
    }
  }

  lemma SpanIsBounded<V>(made: seq<Sample<V>>, gap: real, earliest: real, now: real)
    requires Ascending(made, gap) && gap > 0.0 && made != []
    requires earliest <= made[0].time && made[|made| - 1].time < now && now - earliest <= HISTORY_SIZE as real * gap
    ensures |made| <= HISTORY_SIZE
  {
    var m: nat := |made| - 1;
    PassSpan(made, gap, 0, m);
    assert gap * (m - 0) as real == gap * m as real;
    assert gap * m as real <= made[m].time - made[0].time < now - earliest;
    ScaledLess(m, HISTORY_SIZE, gap);
  }

  lemma ScaledLess(m: nat, n: nat, scale: real)
    requires scale > 0.0 && scale * m as real < n as real * scale
    ensures m < n
  {
    assert scale * (n - m) as real == n as real * scale - scale * m as real;
  }

  /** Nothing within reach is skipped: each grid point up to `now` that is not too old has its rollup. */
  lemma {:induction false} RollupsComplete<V>(
    arithmetic: Arithmetic<V>, e: Entry, source: seq<Sample<V>>, now: real, earliest: real, id: int)
    requires e.interval >= 1.0
    requires e.sampleID < id <= Advanced(e, now).sampleID && GridTime(e, id) >= earliest
    ensures exists s :: s in Rollups(arithmetic, e, source, now, earliest) && s.sampleID == id
    decreases Distance(e, now)
  {
    AdvancedFacts(e, now);
    NextIsCloser(e, now);
    if id == e.sampleID + 1 {
      assert e.interval * (id - e.sampleID - 1) as real == 0.0;
      assert Rollup(arithmetic, Next(e), source) in Rollups(arithmetic, e, source, now, earliest);
    } else {
      NextGrid(e, id);
      RollupsComplete(arithmetic, Next(e), source, now, earliest, id);
    }
  }

  // ------------------------------------------------------------------
  // Starting up: loading stored samples and filling the gap to the present.
  // ------------------------------------------------------------------

  function Ceil(r: real): int {
    if r == r.Floor as real then r.Floor else r.Floor + 1
  }

  /** The index after loading: it continues from the newest stored sample. */
  function LoadedEntry(e: Entry, id: int, time: real): Entry {
    e.(sampleID := id, time := time, nextTime := time + e.interval)
  }

  function Skip(e: Entry): Entry {
    e.(nextTime := e.nextTime + e.interval, sampleID := e.sampleID + 1)
  }

  function FilledForward(e: Entry, now: real): Entry
    requires e.interval >= 1.0
    decreases Distance(e, now)
  {
    if e.nextTime < now then
      NextIsCloser(e, now);
      FilledForward(Skip(e), now)
    else e
  }

  /** `fillGapsAtIndex`; an index that was not loaded starts a new grid at the next whole second. */
  function Filled(e: Entry, now: real): Entry
    requires e.interval >= 1.0
  {
    if e.nextTime == 0.0 then e.(time := Ceil(now) as real, nextTime := Ceil(now) as real + e.interval)
    else FilledForward(e, now)
  }

  lemma {:induction false} FilledForwardFacts(e: Entry, now: real)
    requires e.interval >= 1.0
    ensures var f := FilledForward(e, now);
            && f.interval == e.interval && f.historyIndex == e.historyIndex && Origin(f) == Origin(e)
            && f.nextTime >= now && f.nextTime >= e.nextTime && f.sampleID >= e.sampleID
            && (e.nextTime < now ==> f.sampleID > e.sampleID && f.nextTime < now + e.interval)
            && (e.nextTime >= now ==> f == e)
    decreases Distance(e, now)
  {
    if e.nextTime < now {
      NextIsCloser(e, now);
      NextKeepsOrigin(e);
      FilledForwardFacts(Skip(e), now);
    }
  }
}
