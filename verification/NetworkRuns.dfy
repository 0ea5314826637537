/** Whole runs of the network collector. */
module NetworkRuns {
  import opened Levels
  import opened Network
  import opened Options
  import Persistence
  import opened Pyramid
  import opened Words

  datatype NetTick = NetTick(t: real, readings: seq<Reading>, nows: seq<real>, cell: real)

  /** The readings of every tick are ones the collector can take at that time. */
  ghost predicate RunReadable(entries: seq<Entry>, ticks: seq<NetTick>)
    requires |entries| == LEVELS
    decreases |ticks|
  {
    ticks != [] ==>
      && |ticks[0].nows| == LEVELS && Readable(entries, ticks[0].readings)
      && RunReadable(TickedEntries(entries, ticks[0].t, ticks[0].nows), ticks[1..])
  }

  ghost predicate RunPunctual(entries: seq<Entry>, ticks: seq<NetTick>, anchor: real, seen: real)
    decreases |ticks|
  {
    ticks != [] ==>
      && PunctualTick(entries, Untold(ticks[0]), anchor, seen)
      && RunPunctual(TickedEntries(entries, ticks[0].t, ticks[0].nows), ticks[1..], ticks[0].t, ticks[0].cell)
  }

  /** The times of a tick, without its readings. */
  function Untold(tick: NetTick): TickInput<Net> {
    TickInput(tick.t, None, tick.nows, tick.cell)
  }

  function LastCellOf(ticks: seq<NetTick>, seen: real): real
    decreases |ticks|
  {
    if ticks == [] then seen else LastCellOf(ticks[1..], ticks[0].cell)
  }

  // ------------------------------------------------------------------
  // The grid keeps standing.
  // ------------------------------------------------------------------

  lemma {:induction false} GridPassEach(entries: seq<Entry>, x: nat, nows: seq<real>, y: nat)
    requires |entries| == |nows| == LEVELS && 1 <= x <= LEVELS && y < LEVELS
    ensures |GridPass(entries, x, nows)| == LEVELS
    ensures GridPass(entries, x, nows)[y] == if y < x then entries[y] else PassGrid(entries, y, nows[y])[y]
    decreases LEVELS - x
  {
    if x < LEVELS {
      GridPassEach(PassGrid(entries, x, nows[x]), x + 1, nows, y);
    }
  }

  /** The shared grid moves as the indices of one pyramid would. */
  lemma GridIsTicked(entries: seq<Entry>, t: real, nows: seq<real>)
    requires |entries| == |nows| == LEVELS
    ensures TickGrid(entries, t, nows) == TickedEntries(entries, t, nows)
  {
    var live := entries[0 := entries[0].(time := t, nextTime := t, sampleID := entries[0].sampleID + 1)];
    GridPassEach(live, 1, nows, 0);
    forall x | 1 <= x < LEVELS ensures GridPass(live, 1, nows)[x] == RoundEntry(entries[x], t, nows[x]) {
      GridPassEach(live, 1, nows, x);
    }
  }

  /** One level of the grid through one punctual tick. */
  lemma EntryStands(e: Entry, anchor: real, t: real, now: real, cell: real)
    requires e.interval >= 1.0 && Integral(e.interval) && Standing(e, anchor, cell) && Prompt(anchor, t, cell)
    requires InTime(now, t, cell)
    ensures var after := RoundEntry(e, t, now);
            Standing(after, t, cell) && after.interval == e.interval && after.historyIndex == e.historyIndex
  {
    var level: Level<Net> := Level(e, [], [], 0);
    PassedNext(NET, level, [], anchor, t, now, cell);
    PassedEntry(NET, level, [], t, now);
  }

  lemma GridKeepsStanding(entries: seq<Entry>, t: real, nows: seq<real>, anchor: real, seen: real, cell: real)
    requires GridStands(entries, anchor, seen) && Prompt(anchor, t, cell) && t >= seen
    requires |nows| == LEVELS && forall x | 1 <= x < LEVELS :: InTime(nows[x], t, cell)
    ensures GridStands(TickedEntries(entries, t, nows), t, cell)
  {
    forall x | 1 <= x < LEVELS
      ensures var after := RoundEntry(entries[x], t, nows[x]);
              Standing(after, t, cell)
              && after.interval == entries[x].interval && after.historyIndex == entries[x].historyIndex
    {
      assert WellBased(Blank(entries), x);
      EntryStands(entries[x], anchor, t, nows[x], cell);
    }
    SameShape(entries, TickedEntries(entries, t, nows));
  }

  lemma SameShape(entries: seq<Entry>, after: seq<Entry>)
    requires |entries| == |after| == LEVELS && Shaped(Blank(entries)) && after[0].interval == entries[0].interval
    requires forall x | 1 <= x < LEVELS ::
      after[x].interval == entries[x].interval && after[x].historyIndex == entries[x].historyIndex
    ensures Shaped(Blank(after))
  {
    forall x | 1 <= x < LEVELS ensures WellBased(Blank(after), x) {
      assert WellBased(Blank(entries), x);
    }
  }

  // ------------------------------------------------------------------
  // Runs.
  // ------------------------------------------------------------------

  ghost predicate AllPoised(series: seq<seq<Level<Net>>>, anchor: real, seen: real) {
    forall i | 0 <= i < |series| :: Poised(NET, series[i], anchor, seen)
  }

  /** The state of a run between two ticks. */
  ghost predicate Between(stats: StatsNetwork, anchor: real, seen: real)
    reads stats
  {
    && stats.Valid() && stats.ready && GridStands(stats.sampleIndex, anchor, seen)
    && AllPoised(stats.series, anchor, seen)
  }

  // ------------------------------------------------------------------
  // Start-up.
  // ------------------------------------------------------------------

  /** The index that loading and filling the gaps of seven sound `_id` tables leaves. */
  ghost predicate Loaded(
    entries: seq<Entry>, tables: seq<Persistence.Table<Net>>, origins: seq<real>, nows: seq<real>, clock: real,
    started: real, seen: real)
  {
    && |entries| == |tables| == |origins| == |nows| == LEVELS && entries[0] == InitialEntry(0)
    && 0.0 <= clock <= started && Integral(seen)
    && forall x | 1 <= x < LEVELS ::
         started <= nows[x] <= seen && LoadedAt(x, entries[x], tables[x], origins[x], clock, nows[x])
  }

  ghost predicate LoadedAt(
    x: nat, e: Entry, table: Persistence.Table<Net>, origin: real, clock: real, now: real)
  {
    && x < LEVELS && InitialEntry(x).interval >= 1.0
    && Persistence.OnDisk(table, InitialEntry(x).interval, origin, clock)
    && e == Persistence.Boot(NET.zero, InitialEntry(x), table, now).level.entry
  }

  lemma LoadedGridStands(
    entries: seq<Entry>, tables: seq<Persistence.Table<Net>>, origins: seq<real>, nows: seq<real>, clock: real,
    started: real, seen: real)
    requires Loaded(entries, tables, origins, nows, clock, started, seen)
    ensures GridStands(entries, started, seen)
  {
    forall x | 1 <= x < LEVELS
      ensures Standing(entries[x], started, seen)
      ensures entries[x].interval == InitialEntry(x).interval && entries[x].historyIndex == InitialEntry(x).historyIndex
    {
      assert LoadedAt(x, entries[x], tables[x], origins[x], clock, nows[x]);
      Persistence.InitialEntries(x);
      var level := Persistence.Boot(NET.zero, InitialEntry(x), tables[x], nows[x]).level;
      Persistence.LevelIsReady(NET, level, InitialEntry(x), tables[x], origins[x], clock, nows[x], started, seen);
    }
    ConfiguredIsShaped(Blank(entries));
  }

  /**
   * Start-up: the index is loaded, the first readings list their interfaces without recording anything, and then
   * the collector is ready.
   */
  method Launch(entries: seq<Entry>, readings: seq<Reading>, ghost started: real, ghost seen: real)
    returns (stats: StatsNetwork)
    requires GridStands(entries, started, seen) && entries[0] == InitialEntry(0)
    requires forall r | r in readings :: r.upload < WORD && r.download < WORD && Storable(entries, r.stored)
    ensures fresh(stats) && Between(stats, started, seen) && stats.sampleIndex == entries
  {
    stats := new StatsNetwork();
    stats.LoadIndex(entries);
    for i := 0 to |readings|
      invariant fresh(stats) && stats.Linked() && !stats.ready && stats.sampleIndex == entries
      invariant AllPoised(stats.series, started, seen)
    {
      NewbornIsPoised(entries, readings[i].stored, started, seen);
      stats.ProcessInterface(readings[i].key, readings[i].upload, readings[i].download, readings[i].stored);
    }
    assert stats.Valid();
    stats.BecomeReady();
  }

  // ------------------------------------------------------------------
  // Every tick and every run.
  // ------------------------------------------------------------------

  lemma SharedGrid(stats: StatsNetwork)
    requires stats.Linked()
    ensures forall i | 0 <= i < |stats.series| :: Entries(stats.series[i]) == stats.sampleIndex
  {
    stats.OnGrid();
  }

  method RunTick(stats: StatsNetwork, tick: NetTick, ghost anchor: real, ghost seen: real)
    requires Between(stats, anchor, seen) && |tick.nows| == LEVELS && Readable(stats.sampleIndex, tick.readings)
    requires PunctualTick(stats.sampleIndex, Untold(tick), anchor, seen)
    modifies stats
    ensures Between(stats, tick.t, tick.cell)
    ensures stats.sampleIndex == TickedEntries(old(stats.sampleIndex), tick.t, tick.nows)
    ensures Ticked(old(stats.sampleIndex), old(stats.items), old(stats.series), stats.items, stats.series, tick.t,
                   tick.readings, tick.nows)
  {
    ghost var entries0, items0, series0 := stats.sampleIndex, stats.items, stats.series;
    stats.OnGrid();
    SharedGrid(stats);
    GridKeepsStanding(entries0, tick.t, tick.nows, anchor, seen, tick.cell);
    GridIsTicked(entries0, tick.t, tick.nows);
    stats.Update(tick.t, tick.readings, tick.nows);
    InterfacesStayExact(entries0, items0, series0, stats.items, stats.series, tick.t, tick.readings, tick.nows,
                        anchor, seen, tick.cell);
  }

  /**
   * The main result for interfaces: at the end of every punctual run, all rollups of all interfaces are exact,
   * including interfaces that came up on the way, with whatever the database held of them.
   */
  method RunTicks(stats: StatsNetwork, ticks: seq<NetTick>, ghost anchor: real, ghost seen: real)
    requires Between(stats, anchor, seen) && RunReadable(stats.sampleIndex, ticks)
    requires RunPunctual(stats.sampleIndex, ticks, anchor, seen)
    modifies stats
    ensures stats.Valid()
    ensures forall i | 0 <= i < |stats.series| ::
      Shaped(stats.series[i]) && AllExact(NET, stats.series[i], LastCellOf(ticks, seen))
  {
    ghost var before, latest := anchor, seen;
    for i := 0 to |ticks|
      invariant Between(stats, before, latest)
      invariant RunReadable(stats.sampleIndex, ticks[i..])
      invariant RunPunctual(stats.sampleIndex, ticks[i..], before, latest)
      invariant LastCellOf(ticks[i..], latest) == LastCellOf(ticks, seen)
    {
      assert ticks[i..][0] == ticks[i] && ticks[i..][1..] == ticks[i + 1..];
      RunTick(stats, ticks[i], before, latest);
      before, latest := ticks[i].t, ticks[i].cell;
    }
    assert ticks[|ticks|..] == [];
    forall i | 0 <= i < |stats.series|
      ensures Shaped(stats.series[i]) && AllExact(NET, stats.series[i], LastCellOf(ticks, seen))
    {
      assert Poised(NET, stats.series[i], before, latest);
    }
  }
}
