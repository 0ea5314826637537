/** One level of a collector and its database table: reloading, gap filling, queued rows, retention, restarts. */
module Persistence {
  import opened Levels
  import opened Pyramid

  datatype Kept<V> = Kept(values: V, time: real, empty: bool)

  type Table<V> = map<int, Kept<V>>

  /** `queue` holds the rows still to be inserted; they are lost when the daemon dies. */
  datatype Store<V> = Store(level: Level<V>, table: Table<V>, queue: seq<Sample<V>>)

  // ------------------------------------------------------------------
  // The database.
  // ------------------------------------------------------------------

  /** The sample id is the primary key: inserting a second row under an id fails. */
  function Insert<V>(table: Table<V>, id: int, row: Kept<V>): Table<V> {
    if id in table then table else table[id := row]
  }

  function InsertAll<V>(table: Table<V>, queue: seq<Sample<V>>): Table<V>
    decreases |queue|
  {
    if queue == [] then table
    else InsertAll(Insert(table, queue[0].sampleID, Kept(queue[0].values, queue[0].time, false)), queue[1..])
  }

  /** `delete ... where sample < ?` */
  function Retain<V>(table: Table<V>, least: int): Table<V> {
    map id | id in table && id >= least :: table[id]
  }

  ghost predicate HasRows<V>(table: Table<V>) {
    exists id :: id in table
  }

  ghost predicate Greatest(ids: set<int>, m: int) {
    m in ids && forall id | id in ids :: id <= m
  }

  lemma {:induction false} GreatestExists(ids: set<int>)
    requires exists id :: id in ids
    ensures exists m :: Greatest(ids, m)
    decreases |ids|
  {
    var id :| id in ids;
    var rest := ids - {id};
    assert forall i | i in ids :: i in rest || i == id;
    if exists i :: i in rest {
      GreatestExists(rest);
      var m :| Greatest(rest, m);
      assert Greatest(ids, if id > m then id else m);
    } else {
      assert Greatest(ids, id);
    }
  }

  /** The newest id, or 0 for an empty table. */
  ghost function Newest<V>(table: Table<V>): (newest: int)
    ensures HasRows(table) ==> newest in table && forall id | id in table :: id <= newest
  {
    if HasRows(table) then
      assert forall id :: id in table <==> id in table.Keys;
      GreatestExists(table.Keys);
      var m :| Greatest(table.Keys, m);
      m
    else 0
  }

  /** The rows with ids in a range, in ascending order. */
  function Select<V>(table: Table<V>, from: int, upto: int): seq<Sample<V>>
    decreases upto - from + 1
  {
    if from > upto then []
    else
      Select(table, from, upto - 1)
      + if upto in table then [Sample(table[upto].values, upto, table[upto].time, false)] else []
  }

  const RELOAD: nat := 602

  /** `where sample >= newest - 602 order by sample asc limit 602` */
  ghost function Query<V>(table: Table<V>): seq<Sample<V>> {
    var rows := Select(table, Newest(table) - RELOAD, Newest(table));
    if |rows| > RELOAD then rows[..RELOAD] else rows
  }

  /** Ids rise strictly. */
  ghost predicate Rising<V>(rows: seq<Sample<V>>) {
    forall i, j | 0 <= i < j < |rows| :: rows[i].sampleID < rows[j].sampleID
  }

  ghost predicate IsRow<V>(table: Table<V>, s: Sample<V>) {
    s.sampleID in table && s == Sample(table[s.sampleID].values, s.sampleID, table[s.sampleID].time, false)
  }

  lemma {:induction false} SelectFacts<V>(table: Table<V>, from: int, upto: int)
    requires from <= upto + 1
    ensures var rows := Select(table, from, upto);
            && Rising(rows) && |rows| <= upto - from + 1
            && (forall s | s in rows :: IsRow(table, s) && from <= s.sampleID <= upto)
            && (upto in table && from <= upto ==> rows != [] && rows[|rows| - 1].sampleID == upto)
    decreases upto - from + 1
  {
    if from <= upto {
      SelectFacts(table, from, upto - 1);
      var front, rows := Select(table, from, upto - 1), Select(table, from, upto);
      if upto in table {
        var row := Sample(table[upto].values, upto, table[upto].time, false);
        assert rows == front + [row];
        RisingAppend(front, [row], upto - 1);
      } else {
        assert rows == front;
      }
    }
  }

  lemma {:induction false} SelectIsFull<V>(table: Table<V>, from: int, upto: int)
    requires from <= upto + 1
    ensures |Select(table, from, upto)| == upto - from + 1 <==> forall id | from <= id <= upto :: id in table
    decreases upto - from + 1
  {
    if from <= upto {
      SelectIsFull(table, from, upto - 1);
      SelectFacts(table, from, upto - 1);
      assert (forall id | from <= id <= upto :: id in table)
        <==> (forall id | from <= id <= upto - 1 :: id in table) && upto in table;
    }
  }

  lemma {:induction false} SelectAll<V>(table: Table<V>, from: int, upto: int, i: nat)
    requires from <= upto + 1 && i < upto - from + 1
    requires forall id | from <= id <= upto :: id in table
    ensures |Select(table, from, upto)| == upto - from + 1 && Select(table, from, upto)[i].sampleID == from + i
    decreases upto - from + 1
  {
    SelectIsFull(table, from, upto);
    SelectIsFull(table, from, upto - 1);
    if i < upto - from {
      SelectAll(table, from, upto - 1, i);
    }
  }

  /**
   * The reload finds the newest row, except when the 603 newest ids are all present: rows are limited in
   * ascending order, so then exactly the newest is missed.
   */
  lemma ReloadMissesNewest<V>(table: Table<V>)
    requires HasRows(table)
    ensures Query(table) != []
    ensures var newest := Newest(table);
            var last := Query(table)[|Query(table)| - 1].sampleID;
            if forall id | newest - RELOAD <= id <= newest :: id in table then last == newest - 1 else last == newest
  {
    var newest := Newest(table);
    SelectFacts(table, newest - RELOAD, newest);
    SelectIsFull(table, newest - RELOAD, newest);
    if forall id | newest - RELOAD <= id <= newest :: id in table {
      SelectAll(table, newest - RELOAD, newest, RELOAD - 1);
    }
  }

  lemma QueryFacts<V>(table: Table<V>)
    ensures var rows := Query(table);
            Rising(rows) && |rows| <= RELOAD && forall s | s in rows :: IsRow(table, s)
    ensures HasRows(table) <==> Query(table) != []
  {
    var newest := Newest(table);
    SelectFacts(table, newest - RELOAD, newest);
    var rows := Select(table, newest - RELOAD, newest);
    forall s | s in Query(table) ensures IsRow(table, s) {
      assert s in rows;
    }
    if Query(table) != [] {
      assert IsRow(table, Query(table)[0]);
    }
  }

  // ------------------------------------------------------------------
  // Starting, working and stopping.
  // ------------------------------------------------------------------

  /** A level as `initShared` leaves it. */
  ghost predicate Initial(e: Entry) {
    e.sampleID == 1 && e.time == 0.0 && e.nextTime == 0.0 && e.interval >= 1.0 && Integral(e.interval)
  }

  lemma InitialEntries(x: nat)
    requires x < LEVELS
    ensures Initial(InitialEntry(x))
  {
  }

  /** `loadPreviousSamplesAtIndex`: the rows are inserted at the front, so the newest comes first. */
  ghost function Reloaded<V>(e: Entry, table: Table<V>): Level<V> {
    var samples := Reversed(Query(table));
    Level(if samples == [] then e else LoadedEntry(e, samples[0].sampleID, samples[0].time), samples, samples, 0)
  }

  /** Loading and gap filling. An empty table gets its first row at once, outside the queue. */
  ghost function Boot<V>(zero: V, e: Entry, table: Table<V>, now: real): Store<V>
    requires e.interval >= 1.0
  {
    var loaded := Reloaded(e, table);
    var filled := Filled(loaded.entry, now);
    Store(loaded.(entry := filled),
          if loaded.entry.nextTime == 0.0 then Insert(table, filled.sampleID, Kept(zero, filled.time, true)) else table,
          [])
  }

  /**
   * The rollups that become rows: all but the empty ones. Tables that index the rows of many items
   * have a row for the empty ones too.
   */
  function Stored<V>(made: seq<Sample<V>>, empties: bool): seq<Sample<V>> {
    if made == [] then [] else (if made[0].empty && !empties then [] else [made[0]]) + Stored(made[1..], empties)
  }

  ghost function MadeBy<V>(
    arithmetic: Arithmetic<V>, e: Entry, source: seq<Sample<V>>, live: real, now: real): seq<Sample<V>>
    requires e.interval >= 1.0
  {
    if live >= e.nextTime then Rollups(arithmetic, e, source, now, Earliest(now, e.interval)) else []
  }

  datatype Event<V> =
    | Restart(now: real)
    | HistoryPass(source: seq<Sample<V>>, live: real, now: real, empties: bool)
    | Flush
    | Shutdown

  /** A flush ends with the deletion of old rows, a shutdown does not; a restart loses the queue. */
  ghost function Step<V>(arithmetic: Arithmetic<V>, config: Entry, store: Store<V>, event: Event<V>): Store<V>
    requires config.interval >= 1.0 && store.level.entry.interval >= 1.0
  {
    match event
    case Restart(now) => Boot(arithmetic.zero, config, store.table, now)
    case HistoryPass(source, live, now, empties) =>
      store.(level := Passed(arithmetic, store.level, source, live, now),
             queue := store.queue + Stored(MadeBy(arithmetic, store.level.entry, source, live, now), empties))
    case Flush =>
      store.(table := Retain(InsertAll(store.table, store.queue), store.level.entry.sampleID - HISTORY_SIZE),
        queue := [])
    case Shutdown => store.(table := InsertAll(store.table, store.queue), queue := [])
  }

  function ClockAfter<V>(event: Event<V>, clock: real): real {
    match event
    case Restart(now) => now
    case HistoryPass(_, _, now, _) => now
    case Flush => clock
    case Shutdown => clock
  }

  // ------------------------------------------------------------------
  // One grid, and keys that only grow.
  // ------------------------------------------------------------------

  function GridAt(interval: real, origin: real, id: int): real {
    origin + interval * (id - 1) as real
  }

  lemma GridGap(interval: real, origin: real, a: int, b: int)
    requires interval > 0.0
    ensures a < b <==> GridAt(interval, origin, a) < GridAt(interval, origin, b)
    ensures a < b ==> GridAt(interval, origin, a) + interval <= GridAt(interval, origin, b)
  {
    var gap := GridAt(interval, origin, b) - GridAt(interval, origin, a);
    assert gap == interval * (b - a) as real;
    if a < b {
      assert interval * (b - a) as real == interval + interval * (b - a - 1) as real;
      assert interval * (b - a - 1) as real >= 0.0;
    } else {
      assert interval * (a - b) as real >= 0.0;
      assert interval * (b - a) as real == -(interval * (a - b) as real);
    }
  }

  /** A stored row lies on the grid; only the very first row may be ahead of the clock, by less than a second. */
  ghost predicate RowFits(interval: real, origin: real, clock: real, id: int, time: real) {
    && id >= 1 && time == GridAt(interval, origin, id) && Integral(time)
    && 0.0 <= time < clock + 1.0 && (id > 1 ==> time < clock)
  }

  ghost predicate OnDisk<V>(table: Table<V>, interval: real, origin: real, clock: real) {
    forall id | id in table :: RowFits(interval, origin, clock, id, table[id].time)
  }

  /** The queue: rising ids, each above everything in the table, none above the level's current id. */
  ghost predicate Queued<V>(store: Store<V>, clock: real) {
    && Rising(store.queue)
    && forall s | s in store.queue ::
         && 1 < s.sampleID <= store.level.entry.sampleID
         && RowFits(store.level.entry.interval, Origin(store.level.entry), clock, s.sampleID, s.time)
         && forall id | id in store.table :: id < s.sampleID
  }

  ghost predicate Sound<V>(config: Entry, store: Store<V>, clock: real) {
    var e := store.level.entry;
    && e.interval == config.interval && e.historyIndex == config.historyIndex
    && e.sampleID >= 1 && Integral(e.nextTime) && e.nextTime >= 0.0 && Ordered(store.level)
    && OnDisk(store.table, e.interval, Origin(e), clock)
    && (forall id | id in store.table :: id <= e.sampleID)
    && Queued(store, clock)
  }

  lemma LoadedOrigin(e: Entry, id: int, time: real, origin: real)
    requires time == GridAt(e.interval, origin, id)
    ensures Origin(LoadedEntry(e, id, time)) == origin
  {
    assert e.interval * id as real == e.interval * (id - 1) as real + e.interval;
  }

  /** The newest-first list of stored rows is as far apart as the grid. */
  lemma RowsAreSpaced<V>(rows: seq<Sample<V>>, table: Table<V>, interval: real, origin: real, clock: real)
    requires interval >= 1.0 && OnDisk(table, interval, origin, clock)
    requires Rising(rows) && forall s | s in rows :: IsRow(table, s)
    ensures Spaced(Reversed(rows), interval)
  {
    ReversedSize(rows);
    var log, n := Reversed(rows), |rows|;
    forall i | 0 <= i < n - 1
      ensures log[i].time >= log[i + 1].time + interval && log[i].sampleID > log[i + 1].sampleID
    {
      var newer, older := rows[n - 1 - i], rows[n - 2 - i];
      assert log[i] == newer && log[i + 1] == older;
      assert IsRow(table, newer) && IsRow(table, older);
      GridGap(interval, origin, older.sampleID, newer.sampleID);
    }
  }

  lemma ReloadedIsOrdered<V>(config: Entry, table: Table<V>, origin: real, clock: real)
    requires Initial(config) && HasRows(table) && OnDisk(table, config.interval, origin, clock)
    ensures var level := Reloaded(config, table);
            && Ordered(level) && level.made == 0 && level.log != []
            && Origin(level.entry) == origin && level.entry.sampleID >= 1
            && level.entry.nextTime == level.log[0].time + config.interval && Integral(level.log[0].time)
            && 0.0 <= level.log[0].time < clock + 1.0
  {
    QueryFacts(table);
    var rows, level := Query(table), Reloaded(config, table);
    ReversedSize(rows);
    RowsAreSpaced(rows, table, config.interval, origin, clock);
    var newest := rows[|rows| - 1];
    assert newest in rows && level.log[0] == newest;
    assert IsRow(table, newest);
    LoadedOrigin(config, newest.sampleID, newest.time, origin);
  }

  lemma {:induction false} FillIsIntegral(e: Entry, now: real)
    requires Integral(e.interval) && e.interval >= 1.0 && Integral(e.nextTime)
    ensures Integral(FilledForward(e, now).nextTime)
    decreases Distance(e, now)
  {
    if e.nextTime < now {
      NextIsCloser(e, now);
      IntegralSum(e.nextTime, e.interval);
      FillIsIntegral(Skip(e), now);
    }
  }

  lemma NotAboveCeil(time: real, now: real)
    requires Integral(time) && time < now + 1.0
    ensures time <= Ceil(now) as real
  {
    CeilBounds(now);
    if time > Ceil(now) as real {
      IntegralGap(Ceil(now) as real, time);
    }
  }

  /** The next grid time is that of the next id. */
  lemma NextOnGrid(e: Entry)
    ensures e.nextTime == GridAt(e.interval, Origin(e), e.sampleID + 1)
  {
  }

  /**
   * A restart continues the grid of the table, whatever the reload missed: after filling the gap, the level's
   * id is at least that of every stored row.
   */
  lemma RestartIsSound<V>(zero: V, config: Entry, table: Table<V>, origin: real, clock: real, now: real)
    requires Initial(config) && 0.0 <= clock <= now && HasRows(table) && OnDisk(table, config.interval, origin, clock)
    ensures var store := Boot(zero, config, table, now);
            && Sound(config, store, now) && store.table == table && Origin(store.level.entry) == origin
            && store.level.made == 0 && now <= store.level.entry.nextTime <= Ceil(now) as real + config.interval
  {
    ReloadedIsOrdered(config, table, origin, clock);
    var level, store := Reloaded(config, table), Boot(zero, config, table, now);
    IntegralSum(level.log[0].time, config.interval);
    FilledForwardFacts(level.entry, now);
    FillIsIntegral(level.entry, now);
    NotAboveCeil(level.log[0].time, now);
    var e := store.level.entry;
    NextOnGrid(e);
    forall id | id in table
      ensures id <= e.sampleID && RowFits(e.interval, origin, now, id, table[id].time)
    {
      assert RowFits(config.interval, origin, clock, id, table[id].time);
      GridGap(e.interval, origin, id, e.sampleID + 1);
    }
  }

  lemma FirstOnGrid(e: Entry)
    requires e.sampleID == 1
    ensures Origin(e) == e.nextTime - e.interval && GridAt(e.interval, Origin(e), 1) == e.nextTime - e.interval
  {
    assert e.sampleID as real == 1.0 && (1 - 1) as real == 0.0;
  }

  lemma NothingToReload<V>(e: Entry, table: Table<V>)
    requires !HasRows(table)
    ensures Reloaded(e, table) == Level(e, [], [], 0)
  {
    QueryFacts(table);
  }

  lemma OnlyRow<V>(table: Table<V>, id: int, row: Kept<V>)
    requires !HasRows(table)
    ensures Insert(table, id, row) == map[id := row]
  {
    assert forall i :: i !in table;
  }

  /** An empty table starts a new grid, at the next whole second. */
  lemma FirstStartIsSound<V>(zero: V, config: Entry, table: Table<V>, now: real)
    requires Initial(config) && 0.0 <= now && !HasRows(table)
    ensures var store := Boot(zero, config, table, now);
            && Sound(config, store, now) && store.table == map[1 := Kept(zero, Ceil(now) as real, true)]
            && store.level.made == 0 && store.level.log == []
            && now <= store.level.entry.nextTime == Ceil(now) as real + config.interval
  {
    NothingToReload(config, table);
    var e := Filled(config, now);
    OnlyRow(table, 1, Kept(zero, e.time, true));
    IntegralSum(Ceil(now) as real, config.interval);
    FirstOnGrid(e);
    var store := Boot(zero, config, table, now);
    assert store == Store(Level(e, [], [], 0), map[1 := Kept(zero, e.time, true)], []);
    assert RowFits(e.interval, Origin(e), now, 1, e.time);
  }

  // ------------------------------------------------------------------
  // Work between restarts.
  // ------------------------------------------------------------------

  lemma {:induction false} StoredFacts<V>(made: seq<Sample<V>>, gap: real, empties: bool)
    requires Ascending(made, gap)
    ensures Rising(Stored(made, empties))
    ensures forall s | s in Stored(made, empties) :: s in made && (empties || !s.empty)
    ensures forall s | s in made && (empties || !s.empty) :: s in Stored(made, empties)
  {
    if made != [] {
      var rest := Stored(made[1..], empties);
      assert Ascending(made[1..], gap) by {
        forall i | 0 <= i < |made[1..]| - 1
          ensures made[1..][i + 1].time >= made[1..][i].time + gap && made[1..][i + 1].sampleID > made[1..][i].sampleID
        {
          assert made[1..][i] == made[i + 1] && made[1..][i + 1] == made[i + 2];
        }
      }
      StoredFacts(made[1..], gap, empties);
      if empties || !made[0].empty {
        forall s | s in rest ensures made[0].sampleID < s.sampleID {
          var i :| 0 <= i < |made[1..]| && made[1..][i] == s;
          AscendingIds(made, gap, 0, i + 1);
        }
        RisingCons(made[0], rest);
      } else {
        assert [] + rest == rest;
      }
    }
  }

  lemma RisingCons<V>(first: Sample<V>, rest: seq<Sample<V>>)
    requires Rising(rest) && forall s | s in rest :: first.sampleID < s.sampleID
    ensures Rising([first] + rest)
  {
    var rows := [first] + rest;
    forall i, j | 0 <= i < j < |rows| ensures rows[i].sampleID < rows[j].sampleID {
      assert rows[j] == rest[j - 1] && rest[j - 1] in rest;
    }
  }

  lemma RisingAppend<V>(a: seq<Sample<V>>, b: seq<Sample<V>>, id: int)
    requires Rising(a) && Rising(b)
    requires (forall s | s in a :: s.sampleID <= id) && forall s | s in b :: id < s.sampleID
    ensures Rising(a + b)
  {
    var rows := a + b;
    forall i, j | 0 <= i < j < |rows| ensures rows[i].sampleID < rows[j].sampleID {
      if i < |a| <= j {
        assert rows[i] in a && rows[j] in b;
      }
    }
  }

  lemma {:induction false} AscendingIds<V>(made: seq<Sample<V>>, gap: real, i: nat, j: nat)
    requires Ascending(made, gap) && i < j < |made|
    ensures made[i].sampleID < made[j].sampleID
    decreases j - i
  {
    if i + 1 < j {
      AscendingIds(made, gap, i, j - 1);
    }
  }

  /** The rows of one pass: new ids, on the grid, in the past. */
  lemma PassRowsFit<V>(
    arithmetic: Arithmetic<V>, level: Level<V>, source: seq<Sample<V>>, live: real, now: real, empties: bool)
    requires level.entry.interval >= 1.0 && Integral(level.entry.interval) && level.entry.sampleID >= 1
    requires Integral(level.entry.nextTime) && level.entry.nextTime >= 0.0
    ensures var rows := Stored(MadeBy(arithmetic, level.entry, source, live, now), empties);
            var e := Passed(arithmetic, level, source, live, now).entry;
            && Rising(rows)
            && forall s | s in rows :: level.entry.sampleID < s.sampleID <= e.sampleID
                 && RowFits(e.interval, Origin(level.entry), now, s.sampleID, s.time)
  {
    var made := MadeBy(arithmetic, level.entry, source, live, now);
    var earliest := Earliest(now, level.entry.interval);
    RollupsFormPass(arithmetic, level.entry, source, now, earliest);
    StoredFacts(made, level.entry.interval, empties);
    PassedEntry(arithmetic, level, source, live, now);
    var after := Passed(arithmetic, level, source, live, now).entry;
    forall s | s in Stored(made, empties)
      ensures level.entry.sampleID < s.sampleID <= after.sampleID
      ensures RowFits(level.entry.interval, Origin(level.entry), now, s.sampleID, s.time)
    {
      assert MadeIn(arithmetic, level.entry, source, now, earliest, s);
      MadeFits(arithmetic, level.entry, source, now, earliest, s);
    }
  }

  lemma MadeFits<V>(
    arithmetic: Arithmetic<V>, e: Entry, source: seq<Sample<V>>, now: real, earliest: real, s: Sample<V>)
    requires e.interval >= 1.0 && Integral(e.interval) && Integral(e.nextTime) && e.nextTime >= 0.0 && e.sampleID >= 1
    requires MadeIn(arithmetic, e, source, now, earliest, s)
    ensures RowFits(e.interval, Origin(e), now, s.sampleID, s.time)
  {
    GridFromOrigin(e, s.sampleID);
    GridIsIntegral(e, s.sampleID);
  }

  lemma PassIsSound<V>(
    arithmetic: Arithmetic<V>, config: Entry, store: Store<V>, source: seq<Sample<V>>, live: real, now: real,
    empties: bool, clock: real)
    requires Initial(config) && Sound(config, store, clock) && 0.0 <= clock <= now
    ensures var after := Step(arithmetic, config, store, HistoryPass(source, live, now, empties));
            Sound(config, after, now) && Origin(after.level.entry) == Origin(store.level.entry)
  {
    var after := Step(arithmetic, config, store, HistoryPass(source, live, now, empties));
    var e, rows := store.level.entry, Stored(MadeBy(arithmetic, store.level.entry, source, live, now), empties);
    PassRowsFit(arithmetic, store.level, source, live, now, empties);
    PassedLevelIsSound(arithmetic, store.level, source, live, now);
    RisingAppend(store.queue, rows, e.sampleID);
    QueueGrows(store, after, rows, clock, now);
    LaterOnDisk(store.table, e.interval, Origin(e), clock, now);
  }

  lemma LaterOnDisk<V>(table: Table<V>, interval: real, origin: real, clock: real, now: real)
    requires OnDisk(table, interval, origin, clock) && clock <= now
    ensures OnDisk(table, interval, origin, now)
  {
    forall id | id in table ensures RowFits(interval, origin, now, id, table[id].time) {
      assert RowFits(interval, origin, clock, id, table[id].time);
    }
  }

  /** Where one pass leaves the level itself. */
  lemma PassedLevelIsSound<V>(
    arithmetic: Arithmetic<V>, level: Level<V>, source: seq<Sample<V>>, live: real, now: real)
    requires level.entry.interval >= 1.0 && Integral(level.entry.interval) && Ordered(level)
    requires Integral(level.entry.nextTime) && level.entry.nextTime >= 0.0
    ensures var after := Passed(arithmetic, level, source, live, now);
            && after.entry.interval == level.entry.interval && after.entry.historyIndex == level.entry.historyIndex
            && Ordered(after) && Integral(after.entry.nextTime) && after.entry.nextTime >= 0.0
            && after.entry.sampleID >= level.entry.sampleID && Origin(after.entry) == Origin(level.entry)
  {
    PassedEntry(arithmetic, level, source, live, now);
    PassedGains(arithmetic, level, source, live, now);
    AdvancedFacts(level.entry, now);
    AdvancedIsIntegral(level.entry, now);
  }

  lemma QueueGrows<V>(store: Store<V>, after: Store<V>, rows: seq<Sample<V>>, clock: real, now: real)
    requires Queued(store, clock) && clock <= now && after.queue == store.queue + rows && Rising(after.queue)
    requires after.table == store.table && (forall id | id in store.table :: id <= store.level.entry.sampleID)
    requires after.level.entry.interval == store.level.entry.interval && store.level.entry.sampleID >= 1
    requires Origin(after.level.entry) == Origin(store.level.entry)
    requires after.level.entry.sampleID >= store.level.entry.sampleID
    requires forall s | s in rows :: store.level.entry.sampleID < s.sampleID <= after.level.entry.sampleID
    requires forall s | s in rows ::
      RowFits(after.level.entry.interval, Origin(after.level.entry), now, s.sampleID, s.time)
    ensures Queued(after, now)
  {
    forall s | s in after.queue
      ensures 1 < s.sampleID <= after.level.entry.sampleID
      ensures RowFits(after.level.entry.interval, Origin(after.level.entry), now, s.sampleID, s.time)
      ensures forall id | id in after.table :: id < s.sampleID
    {
      assert s in store.queue || s in rows;
    }
  }

  /** The rows of a queue become rows of the table, and nothing in the table is lost or replaced. */
  ghost predicate AllInserted<V>(table: Table<V>, queue: seq<Sample<V>>, after: Table<V>) {
    && (forall id | id in table :: id in after && after[id] == table[id])
    && (forall s | s in queue :: s.sampleID in after && after[s.sampleID] == Kept(s.values, s.time, false))
    && (forall id | id in after :: id in table || exists s :: s in queue && s.sampleID == id)
  }

  /** Rising ids above the table's never meet the primary-key conflict. */
  lemma {:induction false} InsertsNeverCollide<V>(table: Table<V>, queue: seq<Sample<V>>)
    requires Rising(queue) && forall s, id | s in queue && id in table :: id < s.sampleID
    ensures AllInserted(table, queue, InsertAll(table, queue))
    decreases |queue|
  {
    if queue != [] {
      var s, rest := queue[0], queue[1..];
      assert s in queue;
      var next := Insert(table, s.sampleID, Kept(s.values, s.time, false));
      forall r, id | r in rest && id in next ensures id < r.sampleID {
        var i :| 0 <= i < |rest| && rest[i] == r;
        assert queue[i + 1] == r && r in queue;
      }
      InsertsNeverCollide(next, rest);
      FirstThenRest(table, s, rest, InsertAll(table, queue));
      assert queue == [s] + rest;
    }
  }

  lemma FirstThenRest<V>(table: Table<V>, s: Sample<V>, rest: seq<Sample<V>>, after: Table<V>)
    requires s.sampleID !in table
    requires AllInserted(table[s.sampleID := Kept(s.values, s.time, false)], rest, after)
    ensures AllInserted(table, [s] + rest, after)
  {
    var queue := [s] + rest;
    forall r | r in queue ensures r.sampleID in after && after[r.sampleID] == Kept(r.values, r.time, false) {
      assert r == s || r in rest;
    }
    forall id | id in after ensures id in table || exists r :: r in queue && r.sampleID == id {
      if id == s.sampleID {
        assert queue[0] == s && s in queue;
      } else if id !in table {
        var r :| r in rest && r.sampleID == id;
        assert r in queue;
      }
    }
  }

  lemma WriteIsSound<V>(config: Entry, store: Store<V>, least: int, clock: real)
    requires Sound(config, store, clock)
    ensures AllInserted(store.table, store.queue, InsertAll(store.table, store.queue))
    ensures Sound(config, store.(table := InsertAll(store.table, store.queue), queue := []), clock)
    ensures Sound(config, store.(table := Retain(InsertAll(store.table, store.queue), least), queue := []), clock)
  {
    var after, e := InsertAll(store.table, store.queue), store.level.entry;
    InsertsNeverCollide(store.table, store.queue);
    forall id | id in after
      ensures id <= e.sampleID && RowFits(e.interval, Origin(e), clock, id, after[id].time)
    {
      if id !in store.table {
        var s :| s in store.queue && s.sampleID == id;
      }
    }
  }

  // ------------------------------------------------------------------
  // Whole histories of a table.
  // ------------------------------------------------------------------

  ghost predicate Monotone<V>(events: seq<Event<V>>, clock: real)
    decreases |events|
  {
    events != [] ==> ClockAfter(events[0], clock) >= clock && Monotone(events[1..], ClockAfter(events[0], clock))
  }

  ghost function LastClock<V>(events: seq<Event<V>>, clock: real): real
    decreases |events|
  {
    if events == [] then clock else LastClock(events[1..], ClockAfter(events[0], clock))
  }

  /**
   * One event, under a clock that does not go back. The invariant survives every event, so queued rows never
   * collide with stored ones; and the level stays on the grid it was on, unless it restarts on an empty table.
   */
  lemma StepIsSound<V>(arithmetic: Arithmetic<V>, config: Entry, store: Store<V>, event: Event<V>, clock: real)
    requires Initial(config) && Sound(config, store, clock) && 0.0 <= clock <= ClockAfter(event, clock)
    ensures var after := Step(arithmetic, config, store, event);
            && Sound(config, after, ClockAfter(event, clock))
            && ((event.Restart? ==> HasRows(store.table)) ==> Origin(after.level.entry) == Origin(store.level.entry))
            && (event.Restart? ==> after.level.entry.nextTime >= event.now && after.level.made == 0)
  {
    match event
    case Restart(now) =>
      if HasRows(store.table) {
        RestartIsSound(arithmetic.zero, config, store.table, Origin(store.level.entry), clock, now);
      } else {
        FirstStartIsSound(arithmetic.zero, config, store.table, now);
      }
    case HistoryPass(source, live, now, empties) =>
      PassIsSound(arithmetic, config, store, source, live, now, empties, clock);
    case Flush =>
      WriteIsSound(config, store, store.level.entry.sampleID - HISTORY_SIZE, clock);
    case Shutdown =>
      WriteIsSound(config, store, 0, clock);
  }

  /** The state after a sequence of events. */
  ghost function History<V>(
    arithmetic: Arithmetic<V>, config: Entry, store: Store<V>, events: seq<Event<V>>, clock: real): Store<V>
    requires Initial(config) && Sound(config, store, clock) && 0.0 <= clock && Monotone(events, clock)
    decreases |events|
  {
    if events == [] then store
    else
      StepIsSound(arithmetic, config, store, events[0], clock);
      History(arithmetic, config, Step(arithmetic, config, store, events[0]), events[1..], ClockAfter(events[0], clock))
  }

  /** No restart finds the table empty. */
  ghost predicate NeverEmpty<V>(
    arithmetic: Arithmetic<V>, config: Entry, store: Store<V>, events: seq<Event<V>>, clock: real)
    requires Initial(config) && Sound(config, store, clock) && 0.0 <= clock && Monotone(events, clock)
    decreases |events|
  {
    if events == [] then true
    else
      StepIsSound(arithmetic, config, store, events[0], clock);
      && (events[0].Restart? ==> HasRows(store.table))
      && NeverEmpty(arithmetic, config, Step(arithmetic, config, store, events[0]), events[1..],
        ClockAfter(events[0], clock))
  }

  /**
   * The main result for stored history: through any number of passes, stalls, flushes, crashes and restarts,
   * in any order, all rows lie on one grid, ids above 1 lie in the past, and each queued id is above every
   * stored one. The grid itself never moves as long as no restart finds the table empty.
   */
  lemma {:induction false} HistoryKeepsGrid<V>(
    arithmetic: Arithmetic<V>, config: Entry, store: Store<V>, events: seq<Event<V>>, clock: real)
    requires Initial(config) && Sound(config, store, clock) && 0.0 <= clock && Monotone(events, clock)
    ensures Sound(config, History(arithmetic, config, store, events, clock), LastClock(events, clock))
    ensures NeverEmpty(arithmetic, config, store, events, clock) ==>
      Origin(History(arithmetic, config, store, events, clock).level.entry) == Origin(store.level.entry)
    decreases |events|
  {
    if events != [] {
      StepIsSound(arithmetic, config, store, events[0], clock);
      HistoryKeepsGrid(arithmetic, config, Step(arithmetic, config, store, events[0]), events[1..],
                       ClockAfter(events[0], clock));
    }
  }

  /** Right after a flush at most the 601 newest ids are left, with the rows they had or were queued with. */
  lemma FlushBoundsTable<V>(arithmetic: Arithmetic<V>, config: Entry, store: Store<V>, clock: real)
    requires Initial(config) && Sound(config, store, clock)
    ensures var after := Step(arithmetic, config, store, Flush);
            && after.queue == [] && after.level == store.level
            && (forall id | id in after.table && id in store.table :: after.table[id] == store.table[id])
            && forall s | s in store.queue && s.sampleID in after.table ::
                 after.table[s.sampleID] == Kept(s.values, s.time, false)
    ensures var after := Step(arithmetic, config, store, Flush);
            forall id :: id in after.table <==>
              && (id in store.table || exists s :: s in store.queue && s.sampleID == id)
              && store.level.entry.sampleID - HISTORY_SIZE <= id <= store.level.entry.sampleID
  {
    WriteIsSound(config, store, store.level.entry.sampleID - HISTORY_SIZE, clock);
    var inserted := InsertAll(store.table, store.queue);
    forall id ensures id in inserted <==> id in store.table || exists s :: s in store.queue && s.sampleID == id {
    }
  }

  /**
   * A collector that has just started, on whatever earlier sessions left in its seven tables, is ready for
   * the runs in which every rollup is exact.
   */
  lemma RestartedCollectorIsPoised<V>(
    arithmetic: Arithmetic<V>, levels: seq<Level<V>>, tables: seq<Table<V>>, origins: seq<real>, nows: seq<real>,
    clock: real, started: real, seen: real)
    requires |levels| == |tables| == |origins| == |nows| == LEVELS && 0.0 <= clock <= started && Integral(seen)
    requires levels[0].entry.interval == 1.0 && OrderedLive(levels[0])
    requires forall x | 1 <= x < LEVELS ::
      && Restarted(arithmetic, levels[x], InitialEntry(x), tables[x], origins[x], clock, nows[x])
      && started <= nows[x] <= seen
    ensures Poised(arithmetic, levels, started, seen)
  {
    forall x | 1 <= x < LEVELS
      ensures Ready(levels[x], InitialEntry(x), started, seen)
    {
      assert Restarted(arithmetic, levels[x], InitialEntry(x), tables[x], origins[x], clock, nows[x]);
      InitialEntries(x);
      LevelIsReady(arithmetic, levels[x], InitialEntry(x), tables[x], origins[x], clock, nows[x], started, seen);
    }
    ReadyIsShaped(levels, started, seen);
    StartIsPoised(arithmetic, levels, started, seen);
  }

  ghost predicate Restarted<V>(
    arithmetic: Arithmetic<V>, level: Level<V>, config: Entry, table: Table<V>, origin: real, clock: real, now: real)
    requires config.interval >= 1.0
  {
    OnDisk(table, config.interval, origin, clock) && level == Boot(arithmetic.zero, config, table, now).level
  }

  ghost predicate Ready<V>(level: Level<V>, config: Entry, started: real, seen: real) {
    && Ordered(level) && level.entry.interval == config.interval && level.entry.historyIndex == config.historyIndex
    && level.made == 0 && Standing(level.entry, started, seen)
  }

  lemma LevelIsReady<V>(
    arithmetic: Arithmetic<V>, level: Level<V>, config: Entry, table: Table<V>, origin: real, clock: real, now: real,
    started: real, seen: real)
    requires Initial(config) && 0.0 <= clock <= started <= now <= seen && Integral(seen)
    requires Restarted(arithmetic, level, config, table, origin, clock, now)
    ensures Ready(level, config, started, seen)
  {
    CeilIsLeast(now, seen);
    if HasRows(table) {
      RestartIsSound(arithmetic.zero, config, table, origin, clock, now);
    } else {
      FirstStartIsSound(arithmetic.zero, config, table, now);
    }
  }

  lemma ReadyIsShaped<V>(levels: seq<Level<V>>, started: real, seen: real)
    requires |levels| == LEVELS && levels[0].entry.interval == 1.0
    requires forall x | 1 <= x < LEVELS :: Ready(levels[x], InitialEntry(x), started, seen)
    ensures Shaped(levels)
  {
    var configured := levels[0 := levels[0].(entry := InitialEntry(0))];
    ConfiguredIsShaped(configured);
    forall x | 1 <= x < LEVELS ensures WellBased(levels, x) {
      assert WellBased(configured, x);
    }
  }

  // ------------------------------------------------------------------
  // The level as the daemon holds it, and its queue of statements.
  // ------------------------------------------------------------------

  datatype Item<V> = InsertRow(row: Sample<V>) | DeleteBelow(least: int)

  function Execute<V>(table: Table<V>, item: Item<V>): Table<V> {
    match item
    case InsertRow(s) => Insert(table, s.sampleID, Kept(s.values, s.time, false))
    case DeleteBelow(least) => Retain(table, least)
  }

  function ExecuteAll<V>(table: Table<V>, items: seq<Item<V>>): Table<V> {
    if items == [] then table else Execute(ExecuteAll(table, items[..|items| - 1]), items[|items| - 1])
  }

  function Inserts<V>(queue: seq<Sample<V>>): seq<Item<V>> {
    seq(|queue|, i requires 0 <= i < |queue| => InsertRow(queue[i]))
  }

  lemma {:induction false} InsertLast<V>(table: Table<V>, queue: seq<Sample<V>>, s: Sample<V>)
    ensures InsertAll(table, queue + [s]) == Insert(InsertAll(table, queue), s.sampleID, Kept(s.values, s.time, false))
    decreases |queue|
  {
    if queue == [] {
      assert queue + [s] == [s] && [s][1..] == [];
      var next := Insert(table, s.sampleID, Kept(s.values, s.time, false));
      assert InsertAll(next, []) == next;
    } else {
      assert (queue + [s])[1..] == queue[1..] + [s];
      InsertLast(Insert(table, queue[0].sampleID, Kept(queue[0].values, queue[0].time, false)), queue[1..], s);
    }
  }

  /** Running a queue of inserts, and then one deletion, is inserting all and then retaining. */
  lemma {:induction false} ExecuteInserts<V>(table: Table<V>, queue: seq<Sample<V>>, least: int)
    ensures ExecuteAll(table, Inserts(queue)) == InsertAll(table, queue)
    ensures ExecuteAll(table, Inserts(queue) + [DeleteBelow(least)]) == Retain(InsertAll(table, queue), least)
    decreases |queue|
  {
    var items := Inserts(queue);
    if queue != [] {
      var front, last := queue[..|queue| - 1], queue[|queue| - 1];
      ExecuteInserts(table, front, least);
      assert items[..|items| - 1] == Inserts(front);
      InsertLast(table, front, last);
      assert front + [last] == queue;
    }
    assert (items + [DeleteBelow(least)])[..|items|] == items;
  }

  lemma ReversedLast<T>(s: seq<T>, a: T)
    ensures Reversed(s + [a]) == [a] + Reversed(s)
  {
    ReversedSize(s + [a]);
    ReversedSize(s);
  }

  class StoredLevel<V> {
    const zero: V
    var entry: Entry
    var samples: seq<Sample<V>>
    var table: Table<V>
    var databaseQueue: seq<Item<V>>

    constructor (zero: V, x: nat, table: Table<V>)
      requires x < LEVELS
      ensures this.zero == zero && this.table == table && samples == [] && databaseQueue == []
      ensures entry == InitialEntry(x)
    {
      this.zero, this.table := zero, table;
      entry, samples, databaseQueue := InitialEntry(x), [], [];
    }

    /** `rows` is the answer to the reload query. */
    method LoadPreviousSamplesAtIndex(rows: seq<Sample<V>>)
      requires samples == [] && rows == Query(table)
      modifies this`entry, this`samples
      ensures Level(entry, samples, samples, 0) == Reloaded(old(entry), table)
    {
      for i := 0 to |rows|
        invariant samples == Reversed(rows[..i]) && entry == old(entry)
      {
        ReversedLast(rows[..i], rows[i]);
        assert rows[..i + 1] == rows[..i] + [rows[i]];
        samples := [rows[i]] + samples;
      }
      assert rows[..|rows|] == rows;
      if |samples| > 0 {
        entry := entry.(sampleID := samples[0].sampleID);
        entry := entry.(time := samples[0].time);
        entry := entry.(nextTime := entry.time + entry.interval);
      }
    }

    method InsertInitialSample(t: real, sampleID: int)
      modifies this`table
      ensures table == Insert(old(table), sampleID, Kept(zero, t, true))
    {
      if sampleID !in table {
        table := table[sampleID := Kept(zero, t, true)];
      }
    }

    method FillGapsAtIndex(now: real)
      requires entry.interval >= 1.0
      modifies this`entry, this`table
      ensures entry == Filled(old(entry), now)
      ensures table == if old(entry).nextTime == 0.0
                       then Insert(old(table), old(entry).sampleID, Kept(zero, Filled(old(entry), now).time, true))
                       else old(table)
    {
      if entry.nextTime == 0.0 {
        entry := entry.(nextTime := Ceil(now) as real + entry.interval);
        entry := entry.(time := entry.nextTime - entry.interval);
        assert entry == Filled(old(entry), now);
        InsertInitialSample(entry.time, entry.sampleID);
        return;
      }
      while entry.nextTime < now
        invariant table == old(table) && entry.interval >= 1.0
        invariant FilledForward(entry, now) == FilledForward(old(entry), now)
        decreases Distance(entry, now)
      {
        NextIsCloser(entry, now);
        entry := entry.(nextTime := entry.nextTime + entry.interval);
        entry := entry.(sampleID := entry.sampleID + 1);
      }
    }

    method Start(rows: seq<Sample<V>>, now: real)
      requires samples == [] && databaseQueue == [] && rows == Query(table) && entry.interval >= 1.0
      modifies this`entry, this`samples, this`table
      ensures Store(Level(entry, samples, samples, 0), table, []) == Boot(zero, old(entry), old(table), now)
    {
      LoadPreviousSamplesAtIndex(rows);
      FillGapsAtIndex(now);
    }

    method RemoveOldSamples()
      modifies this`databaseQueue
      ensures databaseQueue == old(databaseQueue) + [DeleteBelow(entry.sampleID - HISTORY_SIZE)]
    {
      databaseQueue := databaseQueue + [DeleteBelow(entry.sampleID - 600)];
    }

    method InsertDatabaseItems()
      modifies this`table, this`databaseQueue
      ensures table == ExecuteAll(old(table), old(databaseQueue)) && databaseQueue == []
    {
      for i := 0 to |databaseQueue|
        invariant databaseQueue == old(databaseQueue) && table == ExecuteAll(old(table), databaseQueue[..i])
      {
        assert databaseQueue[..i + 1][..i] == databaseQueue[..i];
        table := Execute(table, databaseQueue[i]);
      }
      assert databaseQueue[..|databaseQueue|] == databaseQueue;
      databaseQueue := [];
    }

    /** The periodic write, with `pending` the rows queued since the last one. */
    method RunQueue(ghost pending: seq<Sample<V>>)
      requires databaseQueue == Inserts(pending)
      modifies this`table, this`databaseQueue
      ensures table == Retain(InsertAll(old(table), pending), entry.sampleID - HISTORY_SIZE) && databaseQueue == []
    {
      ExecuteInserts(table, pending, entry.sampleID - HISTORY_SIZE);
      RemoveOldSamples();
      InsertDatabaseItems();
    }
  }
}
