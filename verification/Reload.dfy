/** What a restart brings back: which rows of a table become samples again. */
module Reload {
  import opened Levels
  import opened Persistence
  import opened Pyramid

  ghost predicate HasId<V>(samples: seq<Sample<V>>, id: int) {
    exists s :: s in samples && s.sampleID == id
  }

  lemma HasIdAppend<V>(samples: seq<Sample<V>>, s: Sample<V>, id: int)
    ensures HasId(samples + [s], id) <==> HasId(samples, id) || s.sampleID == id
  {
    assert s in samples + [s];
    assert forall r :: r in samples + [s] <==> r in samples || r == s;
  }

  /** A selection holds exactly the rows of its range. */
  lemma {:induction false} SelectedIds<V>(table: Table<V>, from: int, upto: int, id: int)
    ensures HasId(Select(table, from, upto), id) <==> from <= id <= upto && id in table
    decreases upto - from + 1
  {
    if from <= upto {
      SelectedIds(table, from, upto - 1, id);
      var front := Select(table, from, upto - 1);
      if upto in table {
        HasIdAppend(front, Sample(table[upto].values, upto, table[upto].time, false), id);
      } else {
        assert Select(table, from, upto) == front;
      }
    }
  }

  /** All of the newest ids are in the table, one more than a reload asks for. */
  ghost predicate Full<V>(table: Table<V>, newest: int) {
    forall id | newest - 602 <= id <= newest :: id in table
  }

  lemma LastIsNew<V>(front: seq<Sample<V>>, last: Sample<V>)
    requires Rising(front + [last])
    ensures !HasId(front, last.sampleID)
  {
    forall s | s in front ensures s.sampleID != last.sampleID {
      var i :| 0 <= i < |front| && front[i] == s;
      assert (front + [last])[i] == s && (front + [last])[|front|] == last;
    }
  }

  /** Dropping the last of rising rows drops exactly its id. */
  lemma WithoutLast<V>(rows: seq<Sample<V>>, id: int)
    requires rows != [] && Rising(rows)
    ensures HasId(rows[..|rows| - 1], id) <==> HasId(rows, id) && id != rows[|rows| - 1].sampleID
  {
    var front, last := rows[..|rows| - 1], rows[|rows| - 1];
    assert rows == front + [last];
    HasIdAppend(front, last, id);
    LastIsNew(front, last);
  }

  lemma QueryCuts<V>(table: Table<V>, newest: int) returns (rows: seq<Sample<V>>)
    requires Greatest(table.Keys, newest)
    ensures rows == Select(table, newest - 602, newest) && Rising(rows) && |rows| <= 603
    ensures |rows| == 603 <==> Full(table, newest)
    ensures Query(table) == if |rows| == 603 then rows[..602] else rows
    ensures |rows| == 603 ==> rows[602].sampleID == newest
  {
    assert newest in table;
    assert Newest(table) == newest;
    rows := Select(table, newest - 602, newest);
    SelectIsFull(table, newest - 602, newest);
    SelectFacts(table, newest - 602, newest);
  }

  /** The reload query finds the rows within 602 of the newest one, less the newest itself if all 603 are there. */
  lemma QueryIds<V>(table: Table<V>, newest: int, id: int)
    requires Greatest(table.Keys, newest)
    ensures HasId(Query(table), id) <==>
      id in table && newest - 602 <= id && !(id == newest && Full(table, newest))
  {
    var rows := QueryCuts(table, newest);
    SelectedIds(table, newest - 602, newest, id);
    assert id in table ==> id in table.Keys;
    if |rows| == 603 {
      WithoutLast(rows, id);
    }
  }

  /** Newest first, each with the values and the time of its row. */
  ghost predicate RowsNewestFirst<V>(samples: seq<Sample<V>>, table: Table<V>) {
    && (forall i, j | 0 <= i < j < |samples| :: samples[i].sampleID > samples[j].sampleID)
    && (forall s | s in samples ::
          s.sampleID in table && s == Sample(table[s.sampleID].values, s.sampleID, table[s.sampleID].time, false))
  }

  lemma ReversedRising<V>(rows: seq<Sample<V>>, table: Table<V>)
    requires Rising(rows) && forall s | s in rows :: IsRow(table, s)
    ensures RowsNewestFirst(Reversed(rows), table)
    ensures forall id :: HasId(Reversed(rows), id) <==> HasId(rows, id)
  {
    ReversedSize(rows);
    forall s ensures s in Reversed(rows) <==> s in rows {
      ReversedMembers(rows, s);
    }
  }

  /**
   * The samples a level holds after a restart, from the table alone: exactly the rows within 602 of the newest,
   * less the newest if all 603 are there; newest first, each with the values and time of its row.
   */
  lemma RestartBringsBack<V>(zero: V, e: Entry, table: Table<V>, now: real, newest: int)
    requires e.interval >= 1.0 && Greatest(table.Keys, newest)
    ensures var level := Boot(zero, e, table, now).level;
            && level.log == level.deque && RowsNewestFirst(level.deque, table)
            && forall id :: HasId(level.deque, id) <==>
                 id in table && newest - 602 <= id && !(id == newest && Full(table, newest))
  {
    QueryFacts(table);
    ReversedRising(Query(table), table);
    forall id ensures HasId(Boot(zero, e, table, now).level.deque, id) <==>
      id in table && newest - 602 <= id && !(id == newest && Full(table, newest))
    {
      QueryIds(table, newest, id);
    }
  }

  /** From an empty table nothing comes back. */
  lemma EmptyTableBringsNothing<V>(zero: V, e: Entry, table: Table<V>, now: real)
    requires e.interval >= 1.0 && !HasRows(table)
    ensures Boot(zero, e, table, now).level.deque == []
  {
    QueryFacts(table);
  }

  // ------------------------------------------------------------------
  // Round trips.
  // ------------------------------------------------------------------

  /** A sample as it is read back: rows do not tell that a rollup was empty. */
  ghost predicate ComesBack<V>(samples: seq<Sample<V>>, s: Sample<V>) {
    s.(empty := false) in samples
  }

  lemma RowComesBack<V>(samples: seq<Sample<V>>, table: Table<V>, s: Sample<V>)
    requires RowsNewestFirst(samples, table) && HasId(samples, s.sampleID)
    requires table[s.sampleID] == Kept(s.values, s.time, false)
    ensures ComesBack(samples, s)
  {
    var r :| r in samples && r.sampleID == s.sampleID;
    assert r == s.(empty := false);
  }

  lemma NewestOf<V>(table: Table<V>) returns (newest: int)
    requires HasRows(table)
    ensures Greatest(table.Keys, newest)
  {
    var id :| id in table;
    assert id in table.Keys;
    GreatestExists(table.Keys);
    newest :| Greatest(table.Keys, newest);
  }

  /**
   * A flush and then a crash: what the level holds after the restart is the whole table, and every queued row that
   * the flush has not deleted again is among it, with its values and time.
   */
  lemma FlushedRowsComeBack<V>(arithmetic: Arithmetic<V>, config: Entry, store: Store<V>, clock: real, now: real)
    requires Initial(config) && Sound(config, store, clock) && 0.0 <= clock <= now
    ensures var flushed := Step(arithmetic, config, store, Flush);
            var after := Boot(arithmetic.zero, config, flushed.table, now).level.deque;
            && RowsNewestFirst(after, flushed.table)
            && (forall id :: HasId(after, id) <==> id in flushed.table)
            && forall s | s in store.queue && s.sampleID >= store.level.entry.sampleID - 600 :: ComesBack(after, s)
  {
    var flushed := Step(arithmetic, config, store, Flush);
    var table := flushed.table;
    var after := Boot(arithmetic.zero, config, table, now).level.deque;
    FlushBoundsTable(arithmetic, config, store, clock);
    WriteIsSound(config, store, 0, clock);
    if table == map[] {
      EmptyTableBringsNothing(arithmetic.zero, config, table, now);
    } else {
      var newest := NewestOf(table);
      RestartBringsBack(arithmetic.zero, config, table, now, newest);
      assert newest - 602 !in table;
      assert !Full(table, newest);
    }
    forall s | s in store.queue && s.sampleID >= store.level.entry.sampleID - 600 ensures ComesBack(after, s) {
      assert s.sampleID in table;
      RowComesBack(after, table, s);
    }
  }

  /** Where the reload still reads: within 602 of the newest row, and not that row itself if all 603 are there. */
  ghost predicate WithinReach<V>(table: Table<V>, id: int) {
    forall newest | Greatest(table.Keys, newest) :: newest - 602 <= id && !(id == newest && Full(table, newest))
  }

  lemma ReachedRow<V>(zero: V, e: Entry, table: Table<V>, now: real, s: Sample<V>)
    requires e.interval >= 1.0 && s.sampleID in table && table[s.sampleID] == Kept(s.values, s.time, false)
    requires WithinReach(table, s.sampleID)
    ensures ComesBack(Boot(zero, e, table, now).level.deque, s)
  {
    var newest := NewestOf(table);
    RestartBringsBack(zero, e, table, now, newest);
    RowComesBack(Boot(zero, e, table, now).level.deque, table, s);
  }

  /** A clean end deletes nothing: after it and a start, every queued row within reach of the reload is back. */
  lemma ShutDownRowsComeBack<V>(arithmetic: Arithmetic<V>, config: Entry, store: Store<V>, clock: real, now: real)
    requires Initial(config) && Sound(config, store, clock) && 0.0 <= clock <= now
    ensures var table := Step(arithmetic, config, store, Shutdown).table;
            && (forall id | id in store.table :: id in table && table[id] == store.table[id])
            && forall s | s in store.queue && WithinReach(table, s.sampleID) ::
                 ComesBack(Boot(arithmetic.zero, config, table, now).level.deque, s)
  {
    var table := Step(arithmetic, config, store, Shutdown).table;
    InsertsNeverCollide(store.table, store.queue);
    forall s | s in store.queue && WithinReach(table, s.sampleID)
      ensures ComesBack(Boot(arithmetic.zero, config, table, now).level.deque, s)
    {
      ReachedRow(arithmetic.zero, config, table, now, s);
    }
  }

  // ------------------------------------------------------------------
  // What is queued.
  // ------------------------------------------------------------------

  /** Rows are made of exactly the rollups that are not empty, or of all of them. */
  lemma {:induction false} StoredAre<V>(made: seq<Sample<V>>, empties: bool, s: Sample<V>)
    ensures multiset(Stored(made, empties))[s] == if !s.empty || empties then multiset(made)[s] else 0
  {
    if made != [] {
      StoredAre(made[1..], empties, s);
      assert made == [made[0]] + made[1..];
    }
  }

  /** A pass queues a row for exactly the rollups that the level gains in it. */
  lemma PassQueuesGains<V>(
    arithmetic: Arithmetic<V>, config: Entry, store: Store<V>, source: seq<Sample<V>>, live: real, now: real,
    empties: bool)
    requires config.interval >= 1.0 && store.level.entry.interval >= 1.0 && Ordered(store.level)
    ensures var after := Step(arithmetic, config, store, HistoryPass(source, live, now, empties));
            var n := |after.level.log| - |store.level.log|;
            && n >= 0 && after.level.log[n..] == store.level.log && after.table == store.table
            && store.queue <= after.queue
            && forall s :: s in after.queue[|store.queue|..] <==> s in after.level.log[..n] && (!s.empty || empties)
  {
    var after := Step(arithmetic, config, store, HistoryPass(source, live, now, empties));
    var made := MadeBy(arithmetic, store.level.entry, source, live, now);
    var gained := GainedBy(arithmetic, store.level, source, live, now);
    PassedGains(arithmetic, store.level, source, live, now);
    assert after.level.log[..|gained|] == gained;
    assert after.queue[|store.queue|..] == Stored(made, empties);
    forall s ensures s in Stored(made, empties) <==> s in gained && (!s.empty || empties) {
      StoredAre(made, empties, s);
      assert s in Stored(made, empties) <==> s in multiset(Stored(made, empties));
      assert s in made <==> s in multiset(made);
      ReversedMembers(made, s);
    }
  }
}
