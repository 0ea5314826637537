/** Why a pass may straddle its tick, and a run in which a rollup goes wrong for that reason. */
module StraddlingRuns {
  import opened Levels
  import opened Options
  import opened Pyramid
  import opened Scheduler
  import opened Straddle

  /** After a late turn the loop does not sleep, so the next tick may begin up to a second early. */
  lemma LateTurnIsFollowedEarly(updateTime: real, now: real)
    requires Integral(updateTime) && now > updateTime + 1.0 && !Integral(now)
    ensures now >= now + Slept(SleepFor(updateTime, now)) && now < NextTime(updateTime, now) < now + 1.0
  {
    CeilBounds(now);
    SleptAlmost(0.0);
  }

  // ------------------------------------------------------------------
  // The clock.
  // ------------------------------------------------------------------

  /** Readings of 101.9 for level 1 and 102.1 for the levels above it. */
  function Around(): (nows: seq<real>)
    ensures |nows| == LEVELS
  {
    seq(LEVELS, x => if x <= 1 then 101.9 else 102.1)
  }

  function Late<V>(v: V): Cycle<V> {
    Cycle(Some(v), seq(LEVELS, _ => 100.5), 101.5, 101.5)
  }

  function Straddling<V>(v: V): Cycle<V> {
    Cycle(Some(v), Around(), 102.2, 103.0)
  }

  function Normal<V>(v: V): Cycle<V> {
    Cycle(Some(v), seq(LEVELS, _ => 103.1), 103.2, 104.0)
  }

  /** A late turn, the turn after it, which begins early, and a normal one. */
  function Turns<V>(v: V): seq<Cycle<V>> {
    [Late(v), Straddling(v), Normal(v)]
  }

  lemma TurnsAreTimely<V>(v: V)
    ensures Head(100.0, 100.0) && AllTimely(100.0, 100.0, Turns(v))
    ensures NextTime(100.0, 101.5) == 102.0 && NextTime(102.0, 102.2) == 103.0
  {
    assert Ceil(101.5) == 102;
    SleptAlmost(0.0);
    SleptAlmost(SleepFor(102.0, 102.2));
    SleptAlmost(SleepFor(103.0, 103.2));
    var last, rest := [Normal(v)], [Straddling(v), Normal(v)];
    assert Turns(v)[1..] == rest && rest[1..] == last && last[1..] == [];
    assert AllTimely(104.0, 104.0, last[1..]);
    assert Timely(103.0, 103.0, Normal(v)) && AllTimely(103.0, 103.0, last);
    assert Timely(102.0, 101.5, Straddling(v)) && AllTimely(102.0, 101.5, rest);
    assert Timely(100.0, 100.0, Late(v));
  }

  lemma TurnsAsTicks<V>(v: V)
    requires forall i | 0 <= i < |Turns(v)| :: |Turns(v)[i].nows| == LEVELS
    ensures Ticks(100.0, Turns(v)) == [
      TickInput(100.0, Some(v), Late(v).nows, CellOf(Late(v))),
      TickInput(102.0, Some(v), Around(), CellOf(Straddling(v))),
      TickInput(103.0, Some(v), Normal(v).nows, CellOf(Normal(v)))]
  {
    TurnsAreTimely(v);
    var last, rest := [Normal(v)], [Straddling(v), Normal(v)];
    assert Turns(v)[1..] == rest && rest[1..] == last && last[1..] == [];
    assert Ticks(NextTime(103.0, 103.2), last[1..]) == [];
    assert Ticks(103.0, last) == [TickInput(103.0, Some(v), Normal(v).nows, CellOf(Normal(v)))];
    assert Ticks(102.0, rest) == [TickInput(102.0, Some(v), Around(), CellOf(Straddling(v)))] + Ticks(103.0, last);
  }

  // ------------------------------------------------------------------
  // The levels.
  // ------------------------------------------------------------------

  /** A level without samples that is due at 102. */
  function Due<V>(x: nat): Level<V>
    requires x < LEVELS
  {
    Level(InitialEntry(x).(nextTime := 102.0), [], [], 0)
  }

  function AllDue<V>(): (levels: seq<Level<V>>)
    ensures |levels| == LEVELS
  {
    seq(LEVELS, x requires 0 <= x < LEVELS => Due(x))
  }

  lemma AllDueIsPoised<V>(arithmetic: Arithmetic<V>)
    ensures Poised(arithmetic, AllDue(), 100.0, 100.0)
  {
    ConfiguredIsShaped(AllDue<V>());
    StartIsPoised(arithmetic, AllDue(), 100.0, 100.0);
  }

  /** A level that is not due stays as it is. */
  lemma NotDueYet<V>(
    arithmetic: Arithmetic<V>, levels: seq<Level<V>>, t: real, reading: Option<V>, nows: seq<real>, y: nat)
    requires Shaped(levels) && |nows| == LEVELS && 1 <= y < LEVELS && t < levels[y].entry.nextTime
    ensures |Tick(arithmetic, levels, t, reading, nows)| == LEVELS
    ensures Tick(arithmetic, levels, t, reading, nows)[y] == levels[y]
  {
    TickEach(arithmetic, levels, t, reading, nows, y);
  }

  /** Everything in the log of the level was made since start-up. */
  ghost predicate AllMade<V>(level: Level<V>) {
    level.made == |level.log|
  }

  lemma AllStaysMade<V>(
    arithmetic: Arithmetic<V>, levels: seq<Level<V>>, t: real, reading: Option<V>, nows: seq<real>, y: nat)
    requires AllOrdered(levels) && |nows| == LEVELS && 1 <= y < LEVELS && AllMade(levels[y])
    ensures var after := Tick(arithmetic, levels, t, reading, nows);
            |after| == LEVELS && AllMade(after[y])
            && after[y].entry.interval == levels[y].entry.interval
            && after[y].entry.historyIndex == levels[y].entry.historyIndex
  {
    TickEach(arithmetic, levels, t, reading, nows, y);
    var source := Tick(arithmetic, levels, t, reading, nows)[levels[y].entry.historyIndex].deque;
    assert Ordered(levels[y]);
    PassedGains(arithmetic, levels[y], source, t, nows[y]);
    PassedEntry(arithmetic, levels[y], source, t, nows[y]);
  }

  /** One rollup that is not what its window holds, and the collector is not exact. */
  lemma OneIsEnough<V>(
    arithmetic: Arithmetic<V>, levels: seq<Level<V>>, y: nat, e: Entry, s: Sample<V>, seen: real)
    requires Shaped(levels) && 1 <= y < LEVELS && AllMade(levels[y]) && s in levels[y].log
    requires e.interval == levels[y].entry.interval && e.historyIndex == levels[y].entry.historyIndex
    requires !Exact(arithmetic, e, s, SourceOf(levels, y).log)
    ensures !AllExact(arithmetic, levels, seen)
  {
    var i :| 0 <= i < |levels[y].log| && levels[y].log[i] == s;
    assert !Exact(arithmetic, levels[y].entry, levels[y].log[i], SourceOf(levels, y).log);
    assert !ExactAt(arithmetic, levels, y, seen);
  }

  /** After the second and the third tick: level 2 was rolled up at 102 without what level 1 has of that time. */
  lemma SecondAndThird<V>(arithmetic: Arithmetic<V>, levels: seq<Level<V>>, v: V, seen: real)
    returns (after: seq<Level<V>>)
    requires AllOrdered(levels) && levels[0].entry.time == 100.0 && levels[1] == Due(1) && levels[2] == Due(2)
    ensures after == Tick(arithmetic, Tick(arithmetic, levels, 102.0, Some(v), Around()), 103.0, Some(v),
                          Normal(v).nows)
    ensures Shaped(after) && !AllExact(arithmetic, after, seen)
  {
    var first, s, r;
    first, after, s, r :=
      StraddlingTickLosesSample(arithmetic, levels, 2, 1, 102.0, Some(v), Around(), 103.0, Some(v), Normal(v).nows);
    AllStaysMade(arithmetic, levels, 102.0, Some(v), Around(), 2);
    AllStaysMade(arithmetic, first, 103.0, Some(v), Normal(v).nows, 2);
    assert Window(levels[1].deque, Low(Next(levels[2].entry)), High(Next(levels[2].entry))) == [];
    OneIsEnough(arithmetic, after, 2, levels[2].entry, s, seen);
  }

  lemma ThreeTicks<V>(
    arithmetic: Arithmetic<V>, levels: seq<Level<V>>, a: TickInput<V>, b: TickInput<V>, c: TickInput<V>)
    requires Shaped(levels) && |a.nows| == |b.nows| == |c.nows| == LEVELS
    ensures Timed([a, b, c]) && Shaped(Tick(arithmetic, levels, a.t, a.reading, a.nows))
    ensures var first := Tick(arithmetic, levels, a.t, a.reading, a.nows);
            var second := Tick(arithmetic, first, b.t, b.reading, b.nows);
            Shaped(second) && Run(arithmetic, levels, [a, b, c]) == Tick(arithmetic, second, c.t, c.reading, c.nows)
  {
    TickShaped(arithmetic, levels, a.t, a.reading, a.nows);
    var first := Tick(arithmetic, levels, a.t, a.reading, a.nows);
    TickShaped(arithmetic, first, b.t, b.reading, b.nows);
    var second := Tick(arithmetic, first, b.t, b.reading, b.nows);
    TickShaped(arithmetic, second, c.t, c.reading, c.nows);
    var third := Tick(arithmetic, second, c.t, c.reading, c.nows);
    assert [a, b, c][1..] == [b, c] && [b, c][1..] == [c] && [c][1..] == [];
    assert Run(arithmetic, third, []) == third;
    assert Run(arithmetic, second, [c]) == third;
    assert Run(arithmetic, first, [b, c]) == third;
  }

  // ------------------------------------------------------------------
  // The run.
  // ------------------------------------------------------------------

  lemma OneIntervalOn(e: Entry, now: real)
    requires e.interval >= 6.0 && e.nextTime < now <= e.nextTime + e.interval
    ensures Advanced(e, now) == Next(e)
  {
    assert Advanced(Next(e), now) == Next(e);
  }

  /** Nothing is due in the first tick, and nothing but level 1 in the third. */
  lemma OthersAreClear<V>(v: V)
    ensures var entries := TickedEntries(Entries(AllDue<V>()), 100.0, Late(v).nows);
            && Clear(Entries(AllDue<V>()), 100.0, Late(v).nows)
            && (forall x | 1 <= x < LEVELS :: entries[x] == Due<V>(x).entry)
            && Clear(TickedEntries(entries, 102.0, Around()), 103.0, Normal(v).nows)
  {
    var entries := TickedEntries(Entries(AllDue<V>()), 100.0, Late(v).nows);
    forall x | 1 <= x < LEVELS ensures entries[x] == Due<V>(x).entry {
    }
    forall x | 1 < x < LEVELS ensures TickedEntries(entries, 102.0, Around())[x].nextTime > 103.0 {
      OneIntervalOn(Due<V>(x).entry, 102.1);
    }
  }

  /** In all but one respect the run keeps to its schedule: in the second pass level 2 overtakes level 1. */
  lemma OnlyLevelTwoOvertakes<V>(v: V)
    ensures CellOf(Late(v)) == 101.0 && CellOf(Straddling(v)) == 103.0 && CellOf(Normal(v)) == 104.0
    ensures var entries := TickedEntries(Entries(AllDue<V>()), 100.0, Late(v).nows);
            && Clear(Entries(AllDue<V>()), 100.0, Late(v).nows)
            && Overtakes(entries, 2, 102.0, Around()) && Straddled(entries, 2, 102.0, Around())
            && Clear(TickedEntries(entries, 102.0, Around()), 103.0, Normal(v).nows)
  {
    assert Ceil(100.5) == 101 && Ceil(102.1) == 103 && Ceil(103.1) == 104;
    OthersAreClear(v);
    var entries := TickedEntries(Entries(AllDue<V>()), 100.0, Late(v).nows);
    assert Advanced(entries[1], 101.9) == entries[1];
    assert GridTime(entries[2], 2) == 102.0;
  }

  /**
   * A run that starts from a sound state and that the scheduler allows, with a reading in every tick, and at the
   * end of which not every rollup is exact. Levels 1 and 2 are due at 102, where the second pass straddles.
   */
  lemma StraddlingRunIsInexact<V>(arithmetic: Arithmetic<V>, v: V)
    ensures Poised(arithmetic, AllDue(), 100.0, 100.0) && AllDue<V>()[0].entry.time <= 0.0
    ensures Head(100.0, 100.0) && AllTimely(100.0, 100.0, Turns(v))
    ensures forall i | 0 <= i < |Turns(v)| :: |Turns(v)[i].nows| == LEVELS
    ensures var ticks := Ticks(100.0, Turns(v));
            Timed(ticks) && !AllExact(arithmetic, Run(arithmetic, AllDue(), ticks), LastCell(ticks, 100.0))
  {
    AllDueIsPoised(arithmetic);
    TurnsAreTimely(v);
    AllHaveReadings(100.0, 100.0, Turns(v));
    TurnsAsTicks(v);
    var ticks, levels := Ticks(100.0, Turns(v)), AllDue();
    ThreeTicks(arithmetic, levels, ticks[0], ticks[1], ticks[2]);
    var first := Tick(arithmetic, levels, 100.0, Some(v), Late(v).nows);
    TickStaysOrdered(arithmetic, levels, 100.0, Some(v), Late(v).nows);
    NotDueYet(arithmetic, levels, 100.0, Some(v), Late(v).nows, 1);
    NotDueYet(arithmetic, levels, 100.0, Some(v), Late(v).nows, 2);
    var after := SecondAndThird(arithmetic, first, v, LastCell(ticks, 100.0));
    assert ticks == [ticks[0], ticks[1], ticks[2]];
  }
}
