/** The network collector: one shared time grid, and a pyramid of deltas for every interface. */
module Network {
  import opened Levels
  import opened Options
  import opened Pyramid
  import opened Words

  datatype Net = Net(u: real, d: real)

  function PlusNet(a: Net, b: Net): Net {
    Net(a.u + b.u, a.d + b.d)
  }

  function OverNet(a: Net, count: nat): Net {
    if count == 0 then a else Net(a.u / count as real, a.d / count as real)
  }

  const NET: Arithmetic<Net> := Arithmetic(Net(0.0, 0.0), PlusNet, OverNet)

  // ------------------------------------------------------------------
  // Counters. They are unsigned 64-bit numbers, and 0 stands for "not read yet".
  // ------------------------------------------------------------------

  /** What a reading is compared with. */
  function Base(last: nat, now: nat): nat {
    if last == 0 then now else last
  }

  function Increase(last: nat, now: nat): nat {
    Wrap(now - Base(last, now))
  }

  /** All increases recorded for a sequence of readings. */
  function Recorded(last: nat, readings: seq<nat>): nat
    decreases |readings|
  {
    if readings == [] then 0 else Increase(last, readings[0]) + Recorded(readings[0], readings[1..])
  }

  function Final(last: nat, readings: seq<nat>): nat {
    if readings == [] then last else readings[|readings| - 1]
  }

  predicate AllWords(readings: seq<nat>) {
    forall i | 0 <= i < |readings| :: readings[i] < WORD
  }

  predicate NeverFalls(last: nat, readings: seq<nat>)
    decreases |readings|
  {
    readings != [] ==> last <= readings[0] && NeverFalls(readings[0], readings[1..])
  }

  lemma Increases(last: nat, now: nat)
    requires last < WORD && now < WORD
    ensures Increase(last, now)
      == if last == 0 then 0 else if last <= now then now - last else now - last + WORD
  {
  }

  /** From a non-zero reading on, at least the difference is recorded, and exactly it if and only if nothing fell. */
  lemma {:induction false} RecordedFrom(last: nat, readings: seq<nat>)
    requires 0 < last < WORD && AllWords(readings)
    ensures Recorded(last, readings) >= Final(last, readings) - last
    ensures Recorded(last, readings) == Final(last, readings) - last <==> NeverFalls(last, readings)
    decreases |readings|
  {
    if readings != [] {
      var now, rest := readings[0], readings[1..];
      Increases(last, now);
      assert Final(last, readings) == Final(now, rest);
      if now > 0 {
        RecordedFrom(now, rest);
      } else {
        assert Final(now, rest) < WORD;
      }
    }
  }

  /** A first reading is compared with itself. */
  lemma FirstReadingIsFree(readings: seq<nat>)
    requires readings != [] && AllWords(readings)
    ensures Recorded(0, readings) == Recorded(readings[0], readings[1..])
    ensures Final(0, readings) == Final(readings[0], readings[1..])
    ensures NeverFalls(0, readings) == NeverFalls(readings[0], readings[1..])
  {
    Increases(0, readings[0]);
  }

  /** The first reading that counts. */
  function FirstNonZero(readings: seq<nat>): nat {
    if readings == [] then 0 else if readings[0] != 0 then readings[0] else FirstNonZero(readings[1..])
  }

  /**
   * Conservation: over a device's whole life, the recorded increases add up to its last reading minus its
   * first non-zero one, if and only if its counter never fell.
   */
  lemma {:induction false} CountersAreConserved(readings: seq<nat>)
    requires AllWords(readings)
    ensures Recorded(0, readings) == Final(0, readings) - FirstNonZero(readings) <==> NeverFalls(0, readings)
    decreases |readings|
  {
    if readings != [] {
      FirstReadingIsFree(readings);
      if readings[0] > 0 {
        RecordedFrom(readings[0], readings[1..]);
      } else {
        CountersAreConserved(readings[1..]);
      }
    }
  }

  lemma {:induction false} RecordedLast(last: nat, readings: seq<nat>, now: nat)
    ensures Recorded(last, readings + [now]) == Recorded(last, readings) + Increase(Final(last, readings), now)
    decreases |readings|
  {
    if readings == [] {
      assert [now][1..] == [];
      assert readings + [now] == [now];
    } else {
      assert (readings + [now])[1..] == readings[1..] + [now];
      RecordedLast(readings[0], readings[1..], now);
    }
  }

  // ------------------------------------------------------------------
  // Interfaces.
  // ------------------------------------------------------------------

  datatype Info = Info(device: string, active: bool, last_up: nat, last_down: nat, samples: seq<seq<Sample<Net>>>)

  /** The readings recorded for a device since it was first seen. */
  datatype Trace = Trace(ups: seq<nat>, downs: seq<nat>)

  /** The deques of an interface, seen as levels on the shared grid. */
  ghost predicate Tied(entries: seq<Entry>, item: Info, levels: seq<Level<Net>>) {
    && |entries| == |levels| == |item.samples| == LEVELS
    && forall x | 0 <= x < LEVELS :: levels[x].entry == entries[x] && levels[x].deque == item.samples[x]
  }

  ghost predicate AllTied(entries: seq<Entry>, items: seq<Info>, series: seq<seq<Level<Net>>>) {
    |items| == |series| && forall i | 0 <= i < |items| :: Tied(entries, items[i], series[i])
  }

  /** The grid alone: an interface without samples. */
  ghost function Blank(entries: seq<Entry>): (levels: seq<Level<Net>>)
    ensures |levels| == |entries|
  {
    seq(|entries|, x requires 0 <= x < |entries| => Level(entries[x], [], [], 0))
  }

  ghost predicate Orderly(series: seq<seq<Level<Net>>>) {
    forall i | 0 <= i < |series| :: AllOrdered(series[i])
  }

  predicate Distinct(items: seq<Info>) {
    forall i, j | 0 <= i < j < |items| :: items[i].device != items[j].device
  }

  function IndexOf(items: seq<Info>, device: string): (i: nat)
    ensures i <= |items| && (i < |items| ==> items[i].device == device)
    ensures forall j | 0 <= j < i :: items[j].device != device
  {
    if items == [] || items[0].device == device then 0 else 1 + IndexOf(items[1..], device)
  }

  function SumUp(log: seq<Sample<Net>>): real {
    if log == [] then 0.0 else log[0].values.u + SumUp(log[1..])
  }

  function SumDown(log: seq<Sample<Net>>): real {
    if log == [] then 0.0 else log[0].values.d + SumDown(log[1..])
  }

  /** Everything ever recorded for the interface is accounted for by its readings. */
  ghost predicate Accounted(item: Info, live: Level<Net>, trace: Trace) {
    && AllWords(trace.ups) && AllWords(trace.downs)
    && item.last_up == Final(0, trace.ups) && item.last_down == Final(0, trace.downs)
    && SumUp(live.log) == Recorded(0, trace.ups) as real && SumDown(live.log) == Recorded(0, trace.downs) as real
  }

  ghost predicate AllAccounted(items: seq<Info>, series: seq<seq<Level<Net>>>, traces: seq<Trace>) {
    && |items| == |series| == |traces|
    && forall i | 0 <= i < |items| :: |series[i]| == LEVELS && Accounted(items[i], series[i][0], traces[i])
  }

  function Hidden(key: string): bool {
    key == "lo" || key == "lo0"
  }

  function Ignored(key: string): bool {
    Hidden(key) || key == "nic" || "virbr" <= key || "ath0" <= key
  }

  /** Three names and two families of names are passed over; the other functions of the collector never see them. */
  lemma IgnoredExactly(key: string)
    ensures Ignored(key) <==>
      key in {"lo", "lo0", "nic"} || exists rest :: key == "virbr" + rest || key == "ath0" + rest
  {
    if "virbr" <= key {
      assert key == "virbr" + key[|"virbr"|..];
    }
    if "ath0" <= key {
      assert key == "ath0" + key[|"ath0"|..];
    }
  }

  /** One reading of an interface. */
  function Measured(item: Info, upload: nat, download: nat): Net {
    Net(Increase(item.last_up, upload) as real, Increase(item.last_down, download) as real)
  }

  /** Rolling up level x of one interface. */
  function RolledUp(levels: seq<Level<Net>>, x: nat): seq<Level<Net>>
    requires Shaped(levels) && 1 <= x < LEVELS
  {
    levels[x := Receive(levels[x], Rollup(NET, levels[x].entry, SourceOf(levels, x).deque))]
  }

  function Moved(levels: seq<Level<Net>>, x: nat): seq<Level<Net>>
    requires x < |levels|
  {
    levels[x := levels[x].(entry := Next(levels[x].entry))]
  }

  function RoundAt(levels: seq<Level<Net>>, x: nat, earliest: real): seq<Level<Net>>
    requires Shaped(levels) && 1 <= x < LEVELS
  {
    levels[x := Round(NET, levels[x], SourceOf(levels, x).deque, earliest)]
  }

  function CaughtUpAt(levels: seq<Level<Net>>, x: nat, now: real, earliest: real): seq<Level<Net>>
    requires Shaped(levels) && 1 <= x < LEVELS
  {
    assert WellBased(levels, x);
    levels[x := CaughtUp(NET, levels[x], SourceOf(levels, x).deque, now, earliest)]
  }

  /** A new interface, with what the database still has of it. */
  function Newborn(entries: seq<Entry>, stored: seq<seq<Sample<Net>>>): (levels: seq<Level<Net>>)
    requires |entries| == |stored|
    ensures |levels| == |entries|
  {
    seq(|entries|, x requires 0 <= x < |entries| => Level(entries[x], stored[x], stored[x], 0))
  }

  ghost predicate Storable(entries: seq<Entry>, stored: seq<seq<Sample<Net>>>) {
    && |entries| == |stored| == LEVELS && stored[0] == []
    && forall x | 1 <= x < LEVELS :: StorableAt(entries[x], stored[x])
  }

  ghost predicate StorableAt(e: Entry, stored: seq<Sample<Net>>) {
    Ordered(Level(e, stored, stored, 0))
  }

  /** The interfaces of a collector, on one grid, with distinct names and nothing unaccounted for. */
  ghost predicate Coherent(
    entries: seq<Entry>, items: seq<Info>, series: seq<seq<Level<Net>>>, traces: seq<Trace>)
  {
    && Shaped(Blank(entries)) && AllTied(entries, items, series) && Distinct(items)
      && AllAccounted(items, series, traces)
  }

  lemma NewbornFits(entries: seq<Entry>, item: Info)
    requires |entries| == LEVELS && Storable(entries, item.samples) && item.last_up == 0 && item.last_down == 0
    ensures Tied(entries, item, Newborn(entries, item.samples))
    ensures Accounted(item, Newborn(entries, item.samples)[0], Trace([], []))
  {
  }

  lemma AddedIsDistinct(items: seq<Info>, item: Info)
    requires Distinct(items) && IndexOf(items, item.device) == |items|
    ensures Distinct([item] + items)
  {
    var items' := [item] + items;
    forall i, j | 0 <= i < j < |items'| ensures items'[i].device != items'[j].device {
      assert items'[j] == items[j - 1];
      if i > 0 {
        assert items'[i] == items[i - 1];
      }
    }
  }

  lemma AddedIsTied(
    entries: seq<Entry>, items: seq<Info>, series: seq<seq<Level<Net>>>, item: Info, levels: seq<Level<Net>>)
    requires AllTied(entries, items, series) && Tied(entries, item, levels)
    ensures AllTied(entries, [item] + items, [levels] + series)
  {
    forall i | 0 <= i <= |items| ensures Tied(entries, ([item] + items)[i], ([levels] + series)[i]) {
      if i > 0 {
        assert Tied(entries, items[i - 1], series[i - 1]);
      }
    }
  }

  lemma AddedIsAccounted(
    items: seq<Info>, series: seq<seq<Level<Net>>>, traces: seq<Trace>, item: Info, levels: seq<Level<Net>>,
    trace: Trace)
    requires AllAccounted(items, series, traces) && |levels| == LEVELS && Accounted(item, levels[0], trace)
    ensures AllAccounted([item] + items, [levels] + series, [trace] + traces)
  {
    var items', series', traces' := [item] + items, [levels] + series, [trace] + traces;
    forall i | 0 <= i <= |items| ensures |series'[i]| == LEVELS && Accounted(items'[i], series'[i][0], traces'[i]) {
      if i > 0 {
        assert |series[i - 1]| == LEVELS && Accounted(items[i - 1], series[i - 1][0], traces[i - 1]);
      }
    }
  }

  lemma AddedIsCoherent(
    entries: seq<Entry>, items: seq<Info>, series: seq<seq<Level<Net>>>, traces: seq<Trace>, item: Info,
    levels: seq<Level<Net>>, trace: Trace)
    requires Coherent(entries, items, series, traces) && IndexOf(items, item.device) == |items|
    requires Tied(entries, item, levels) && Accounted(item, levels[0], trace)
    ensures Coherent(entries, [item] + items, [levels] + series, [trace] + traces)
  {
    AddedIsDistinct(items, item);
    AddedIsTied(entries, items, series, item, levels);
    AddedIsAccounted(items, series, traces, item, levels, trace);
  }

  /** All interfaces with a new entry at level x of the shared grid. */
  ghost function Stamped(series: seq<seq<Level<Net>>>, x: nat, e: Entry): seq<seq<Level<Net>>>
    requires x < LEVELS && forall i | 0 <= i < |series| :: |series[i]| == LEVELS
  {
    seq(|series|, i requires 0 <= i < |series| && |series[i]| == LEVELS => series[i][x := series[i][x].(entry := e)])
  }

  lemma StampedIsCoherent(
    entries: seq<Entry>, items: seq<Info>, series: seq<seq<Level<Net>>>, traces: seq<Trace>, x: nat, e: Entry)
    requires Coherent(entries, items, series, traces) && x < LEVELS
    requires e.interval == entries[x].interval && e.historyIndex == entries[x].historyIndex
    ensures Coherent(entries[x := e], items, Stamped(series, x, e), traces)
  {
    ReplaceShaped(Blank(entries), x, Level(e, [], [], 0));
    assert Blank(entries[x := e]) == Blank(entries)[x := Level(e, [], [], 0)];
    var after := Stamped(series, x, e);
    forall i | 0 <= i < |items|
      ensures Tied(entries[x := e], items[i], after[i]) && Accounted(items[i], after[i][0], traces[i])
    {
      assert Tied(entries, items[i], series[i]) && Accounted(items[i], series[i][0], traces[i]);
    }
  }

  /** Changing only `active` keeps everything in place. */
  lemma ActiveIsFree(
    entries: seq<Entry>, items: seq<Info>, series: seq<seq<Level<Net>>>, traces: seq<Trace>, i: nat, active: bool)
    requires Coherent(entries, items, series, traces) && i < |items|
    ensures Coherent(entries, items[i := items[i].(active := active)], series, traces)
  {
    var items' := items[i := items[i].(active := active)];
    forall j | 0 <= j < |items|
      ensures Tied(entries, items'[j], series[j]) && Accounted(items'[j], series[j][0], traces[j])
    {
      assert Tied(entries, items[j], series[j]) && Accounted(items[j], series[j][0], traces[j]);
    }
  }

  function Updated(item: Info, upload: nat, download: nat, s: Sample<Net>): Info
    requires |item.samples| == LEVELS
  {
    item.(last_up := upload, last_down := download, samples := item.samples[0 := Push(item.samples[0], s)])
  }

  function Extended(trace: Trace, upload: nat, download: nat): Trace {
    Trace(trace.ups + [upload], trace.downs + [download])
  }

  lemma ReadingIsAccounted(item: Info, live: Level<Net>, trace: Trace, upload: nat, download: nat, s: Sample<Net>)
    requires Accounted(item, live, trace) && upload < WORD && download < WORD && |item.samples| == LEVELS
    requires s.values == Measured(item, upload, download)
    ensures Accounted(Updated(item, upload, download, s), Receive(live, s), Extended(trace, upload, download))
  {
    RecordedLast(0, trace.ups, upload);
    RecordedLast(0, trace.downs, download);
    assert ([s] + live.log)[1..] == live.log;
  }

  lemma ReplacedIsCoherent(
    entries: seq<Entry>, items: seq<Info>, series: seq<seq<Level<Net>>>, traces: seq<Trace>, i: nat,
    item: Info, levels: seq<Level<Net>>, trace: Trace)
    requires Coherent(entries, items, series, traces) && i < |items| && item.device == items[i].device
    requires Tied(entries, item, levels) && Accounted(item, levels[0], trace)
    ensures Coherent(entries, items[i := item], series[i := levels], traces[i := trace])
  {
    var items', series', traces' := items[i := item], series[i := levels], traces[i := trace];
    forall j | 0 <= j < |items|
      ensures Tied(entries, items'[j], series'[j]) && Accounted(items'[j], series'[j][0], traces'[j])
    {
      assert j != i ==> Tied(entries, items[j], series[j]) && Accounted(items[j], series[j][0], traces[j]);
    }
  }

  lemma RecordIsCoherent(
    entries: seq<Entry>, items: seq<Info>, series: seq<seq<Level<Net>>>, traces: seq<Trace>, i: nat,
    upload: nat, download: nat, s: Sample<Net>)
    requires Coherent(entries, items, series, traces) && i < |items| && upload < WORD && download < WORD
    requires |items[i].samples| == LEVELS && |series[i]| == LEVELS && s.values == Measured(items[i], upload, download)
    ensures Coherent(entries, items[i := Updated(items[i], upload, download, s)],
                     series[i := series[i][0 := Receive(series[i][0], s)]],
                     traces[i := Extended(traces[i], upload, download)])
  {
    var cur, levels, trace := items[i], series[i], traces[i];
    assert Tied(entries, cur, levels) && Accounted(cur, levels[0], trace);
    ReadingIsAccounted(cur, levels[0], trace, upload, download, s);
    var levels' := levels[0 := Receive(levels[0], s)];
    assert Tied(entries, Updated(cur, upload, download, s), levels');
    ReplacedIsCoherent(entries, items, series, traces, i, Updated(cur, upload, download, s), levels',
                       Extended(trace, upload, download));
  }

  // ------------------------------------------------------------------
  // The history pass, for all interfaces at once.
  // ------------------------------------------------------------------

  lemma RoundAtOrdered(levels: seq<Level<Net>>, x: nat, earliest: real)
    requires AllOrdered(levels) && 1 <= x < LEVELS
    ensures AllOrdered(RoundAt(levels, x, earliest))
  {
    assert WellBased(levels, x) && Ordered(levels[x]);
    var source := SourceOf(levels, x).deque;
    RoundOrdered(NET, levels[x], source, earliest);
    var next := Round(NET, levels[x], source, earliest);
    ReplaceShaped(levels, x, next);
    ReplaceOrdered(levels, x, next);
  }

  lemma MovedOrdered(levels: seq<Level<Net>>, x: nat)
    requires AllOrdered(levels) && 1 <= x < LEVELS
    ensures AllOrdered(Moved(levels, x))
  {
    assert WellBased(levels, x) && Ordered(levels[x]);
    var next := levels[x].(entry := Next(levels[x].entry));
    ReplaceShaped(levels, x, next);
    ReplaceOrdered(levels, x, next);
  }

  lemma RoundInSteps(levels: seq<Level<Net>>, x: nat, earliest: real)
    requires AllOrdered(levels) && 1 <= x < LEVELS && AllOrdered(Moved(levels, x))
    ensures RoundAt(levels, x, earliest)
      == if Next(levels[x].entry).time < earliest then Moved(levels, x) else RolledUp(Moved(levels, x), x)
  {
    assert WellBased(levels, x);
    var moved := Moved(levels, x);
    assert SourceOf(moved, x) == SourceOf(levels, x);
    assert moved[x := Receive(moved[x], Rollup(NET, moved[x].entry, SourceOf(levels, x).deque))]
        == levels[x := Receive(moved[x], Rollup(NET, moved[x].entry, SourceOf(levels, x).deque))];
  }

  /** Level x of every interface has gone through one round. */
  ghost predicate Rounds(before: seq<seq<Level<Net>>>, after: seq<seq<Level<Net>>>, x: nat, earliest: real)
    requires Orderly(before) && 1 <= x < LEVELS
  {
    |after| == |before| && forall i | 0 <= i < |after| :: after[i] == RoundAt(before[i], x, earliest)
  }

  ghost predicate AllMoved(before: seq<seq<Level<Net>>>, after: seq<seq<Level<Net>>>, x: nat)
    requires Orderly(before) && 1 <= x < LEVELS
  {
    |after| == |before| && forall i | 0 <= i < |after| :: after[i] == Moved(before[i], x)
  }

  ghost predicate AllRolled(before: seq<seq<Level<Net>>>, after: seq<seq<Level<Net>>>, x: nat)
    requires Orderly(before) && 1 <= x < LEVELS
  {
    |after| == |before| && forall i | 0 <= i < |after| :: after[i] == RolledUp(before[i], x)
  }

  lemma RoundsInSteps(
    before: seq<seq<Level<Net>>>, moved: seq<seq<Level<Net>>>, after: seq<seq<Level<Net>>>, x: nat, earliest: real,
    e: Entry)
    requires Orderly(before) && Orderly(moved) && 1 <= x < LEVELS && AllMoved(before, moved, x)
    requires forall i | 0 <= i < |moved| :: moved[i][x].entry == e
    requires if e.time < earliest then after == moved else AllRolled(moved, after, x)
    ensures Orderly(after) && Rounds(before, after, x, earliest)
  {
    forall i | 0 <= i < |after|
      ensures AllOrdered(RoundAt(before[i], x, earliest)) && after[i] == RoundAt(before[i], x, earliest)
    {
      assert AllOrdered(before[i]) && AllOrdered(moved[i]);
      RoundAtOrdered(before[i], x, earliest);
      RoundInSteps(before[i], x, earliest);
    }
  }

  lemma CaughtUpStep(levels: seq<Level<Net>>, x: nat, now: real, earliest: real)
    requires AllOrdered(levels) && 1 <= x < LEVELS && levels[x].entry.nextTime < now
    requires AllOrdered(RoundAt(levels, x, earliest))
    ensures CaughtUpAt(RoundAt(levels, x, earliest), x, now, earliest) == CaughtUpAt(levels, x, now, earliest)
  {
    assert WellBased(levels, x);
    NextIsCloser(levels[x].entry, now);
    var after := RoundAt(levels, x, earliest);
    assert WellBased(after, x) && SourceOf(after, x) == SourceOf(levels, x);
    var done := CaughtUp(NET, after[x], SourceOf(levels, x).deque, now, earliest);
    assert after[x := done] == levels[x := done];
  }

  lemma CaughtUpEnds(levels: seq<Level<Net>>, x: nat, now: real, earliest: real)
    requires AllOrdered(levels) && 1 <= x < LEVELS && levels[x].entry.nextTime >= now
    ensures CaughtUpAt(levels, x, now, earliest) == levels
  {
    assert WellBased(levels, x);
    assert levels[x := levels[x]] == levels;
  }

  lemma CaughtUpIsPass(levels: seq<Level<Net>>, x: nat, now: real)
    requires AllOrdered(levels) && 1 <= x < LEVELS
    ensures PassLevel(NET, levels, x, now)
      == if levels[0].entry.time >= levels[x].entry.nextTime
         then CaughtUpAt(levels, x, now, Earliest(now, levels[x].entry.interval)) else levels
  {
    assert WellBased(levels, x);
    assert levels[x := levels[x]] == levels;
  }

  /** Finishing level x from here leads where it would have led from `before`. */
  ghost predicate SameResult(
    before: seq<seq<Level<Net>>>, after: seq<seq<Level<Net>>>, x: nat, now: real, earliest: real)
    requires Orderly(before) && Orderly(after) && 1 <= x < LEVELS
  {
    && |after| == |before|
    && forall i | 0 <= i < |after| :: CaughtUpAt(after[i], x, now, earliest) == CaughtUpAt(before[i], x, now, earliest)
  }

  lemma RoundsKeepResult(
    begin: seq<seq<Level<Net>>>, before: seq<seq<Level<Net>>>, after: seq<seq<Level<Net>>>,
    x: nat, now: real, earliest: real)
    requires Orderly(begin) && Orderly(before) && Orderly(after) && 1 <= x < LEVELS
    requires SameResult(begin, before, x, now, earliest) && Rounds(before, after, x, earliest)
    requires forall i | 0 <= i < |before| :: before[i][x].entry.nextTime < now
    ensures SameResult(begin, after, x, now, earliest)
  {
    forall i | 0 <= i < |after|
      ensures CaughtUpAt(after[i], x, now, earliest) == CaughtUpAt(begin[i], x, now, earliest)
    {
      assert AllOrdered(before[i]) && AllOrdered(after[i]) && after[i] == RoundAt(before[i], x, earliest);
      CaughtUpStep(before[i], x, now, earliest);
    }
  }

  /** Level x of every interface has had its share of the pass. */
  ghost predicate LevelPassed(before: seq<seq<Level<Net>>>, after: seq<seq<Level<Net>>>, x: nat, now: real)
    requires Orderly(before) && 1 <= x < LEVELS
  {
    |after| == |before| && forall i | 0 <= i < |after| :: after[i] == PassLevel(NET, before[i], x, now)
  }

  /** Every interface stands at entry e of level x, at the live time. */
  ghost predicate Entering(series: seq<seq<Level<Net>>>, x: nat, e: Entry, live: real) {
    forall i | 0 <= i < |series| ::
      |series[i]| == LEVELS && x < LEVELS && series[i][x].entry == e && series[i][0].entry.time == live
  }

  lemma CaughtUpAllPassed(
    before: seq<seq<Level<Net>>>, after: seq<seq<Level<Net>>>, x: nat, now: real, e: Entry, e': Entry, live: real)
    requires Orderly(before) && Orderly(after) && 1 <= x < LEVELS && live >= e.nextTime && e'.nextTime >= now
    requires Entering(before, x, e, live) && Entering(after, x, e', live)
    requires SameResult(before, after, x, now, Earliest(now, e.interval))
    ensures LevelPassed(before, after, x, now)
  {
    forall i | 0 <= i < |after| ensures after[i] == PassLevel(NET, before[i], x, now) {
      assert AllOrdered(before[i]) && AllOrdered(after[i]);
      CaughtUpIsPass(before[i], x, now);
      CaughtUpEnds(after[i], x, now, Earliest(now, e.interval));
    }
  }

  lemma NotDueIsPassed(series: seq<seq<Level<Net>>>, x: nat, now: real, e: Entry, live: real)
    requires Orderly(series) && 1 <= x < LEVELS && live < e.nextTime
    requires Entering(series, x, e, live)
    ensures LevelPassed(series, series, x, now)
  {
    forall i | 0 <= i < |series| ensures series[i] == PassLevel(NET, series[i], x, now) {
      assert AllOrdered(series[i]);
      CaughtUpIsPass(series[i], x, now);
    }
  }

  /** The rest of the pass leads where the whole pass would have led. */
  ghost predicate SamePass(
    begin: seq<seq<Level<Net>>>, first: nat, series: seq<seq<Level<Net>>>, x: nat, nows: seq<real>)
    requires Orderly(begin) && Orderly(series) && 1 <= first <= x <= LEVELS && |nows| == LEVELS
  {
    && |series| == |begin|
    && forall i | 0 <= i < |series| :: Pass(NET, series[i], x, nows) == Pass(NET, begin[i], first, nows)
  }

  /** The pass is over for every interface. */
  ghost predicate PassDone(begin: seq<seq<Level<Net>>>, first: nat, series: seq<seq<Level<Net>>>, nows: seq<real>)
    requires Orderly(begin) && 1 <= first <= LEVELS && |nows| == LEVELS
  {
    |series| == |begin| && forall i | 0 <= i < |series| :: series[i] == Pass(NET, begin[i], first, nows)
  }

  lemma PassEnds(begin: seq<seq<Level<Net>>>, first: nat, series: seq<seq<Level<Net>>>, x: nat, nows: seq<real>)
    requires Orderly(begin) && Orderly(series) && 1 <= first <= x == LEVELS && |nows| == LEVELS
    requires SamePass(begin, first, series, x, nows)
    ensures PassDone(begin, first, series, nows)
  {
    forall i | 0 <= i < |series| ensures series[i] == Pass(NET, begin[i], first, nows) {
      assert Pass(NET, series[i], x, nows) == series[i];
    }
  }

  lemma LevelKeepsPass(
    begin: seq<seq<Level<Net>>>, first: nat, before: seq<seq<Level<Net>>>, after: seq<seq<Level<Net>>>, x: nat,
    nows: seq<real>)
    requires Orderly(begin) && Orderly(before) && Orderly(after) && 1 <= first <= x < LEVELS && |nows| == LEVELS
    requires SamePass(begin, first, before, x, nows) && LevelPassed(before, after, x, nows[x])
    ensures SamePass(begin, first, after, x + 1, nows)
  {
    forall i | 0 <= i < |after| ensures Pass(NET, after[i], x + 1, nows) == Pass(NET, begin[i], first, nows) {
      assert AllOrdered(before[i]) && after[i] == PassLevel(NET, before[i], x, nows[x]);
      assert Pass(NET, before[i], x, nows) == Pass(NET, begin[i], first, nows);
    }
  }

  /** The loop over one deque, with its `continue` above the window and its `break` below it. */
  method ScanWindow(
    from: seq<Sample<Net>>, low: real, high: real, ghost gap: real) returns (u: real, d: real, count: nat)
    requires Spaced(from, gap) && gap >= 0.0
    ensures Net(u, d) == Total(NET, Window(from, low, high)) && count == |Window(from, low, high)|
  {
    u, d, count := 0.0, 0.0, 0;
    var i := 0;
    ghost var window := [];
    while i < |from|
      invariant 0 <= i <= |from|
      invariant window == Window(from[..i], low, high) && count == |window|
      invariant Net(u, d) == Total(NET, window)
    {
      var cursample := from[i];
      WindowStep(from, i, low, high);
      i := i + 1;
      if cursample.time > high {
        continue;
      }
      if cursample.time < low {
        WindowStops(from, gap, i - 1, low, high);
        assert Window(from, low, high) == window;
        return;
      }
      TotalStep(NET, window, cursample);
      window := window + [cursample];
      u := u + cursample.values.u;
      d := d + cursample.values.d;
      count := count + 1;
    }
    assert from[..i] == from;
  }

  lemma DequeSpaced(levels: seq<Level<Net>>, y: nat)
    requires AllOrdered(levels) && y < LEVELS
    ensures Spaced(levels[y].deque, levels[y].entry.interval) && levels[y].entry.interval >= 1.0
  {
    var level := levels[y];
    if y > 0 {
      assert Ordered(level) && WellBased(levels, y);
    }
    PrefixSpaced(level.deque, level.log, level.entry.interval);
  }

  lemma RolledUpFits(
    entries: seq<Entry>, item: Info, levels: seq<Level<Net>>, trace: Trace, x: nat, sample: Sample<Net>)
    requires Tied(entries, item, levels) && Accounted(item, levels[0], trace) && Shaped(levels) && 1 <= x < LEVELS
    requires sample == Rollup(NET, levels[x].entry, SourceOf(levels, x).deque)
    ensures var item' := item.(samples := item.samples[x := Push(item.samples[x], sample)]);
            Tied(entries, item', RolledUp(levels, x)) && Accounted(item', RolledUp(levels, x)[0], trace)
  {
  }

  class StatsNetwork {
    var sampleIndex: seq<Entry>
    var items: seq<Info>
    var ready: bool
    var session: nat
    /** Everything every interface ever recorded, level by level, and the readings it came from. */
    ghost var series: seq<seq<Level<Net>>>
    ghost var traces: seq<Trace>

    ghost predicate Linked()
      reads this
    {
      Coherent(sampleIndex, items, series, traces)
    }

    ghost predicate Valid()
      reads this
    {
      Linked() && Orderly(series)
    }

    constructor ()
      ensures Valid() && items == [] && !ready && sampleIndex == seq(LEVELS,
        x requires 0 <= x < LEVELS => InitialEntry(x))
    {
      sampleIndex := seq(LEVELS, x requires 0 <= x < LEVELS => InitialEntry(x));
      items, ready, session, series, traces := [], false, 0, [], [];
      new;
      ConfiguredIsShaped(Blank(sampleIndex));
    }

    /** `_init`: levels 1 to 7 of the index as loading and gap filling leave them. */
    method LoadIndex(entries: seq<Entry>)
      requires Linked() && items == [] && |entries| == LEVELS && entries[0] == sampleIndex[0]
      requires Shaped(Blank(entries))
      modifies this`sampleIndex
      ensures Valid() && sampleIndex == entries
    {
      for x := 1 to LEVELS
        invariant |sampleIndex| == LEVELS && sampleIndex[..x] == entries[..x]
      {
        sampleIndex := sampleIndex[x := entries[x]];
        assert sampleIndex[..x + 1] == entries[..x + 1];
      }
      assert sampleIndex == sampleIndex[..LEVELS] && entries == entries[..LEVELS];
    }

    method BecomeReady()
      requires Valid()
      modifies this`ready
      ensures Valid() && ready
    {
      ready := true;
    }

    method Known(key: string) returns (known: bool)
      ensures known <==> IndexOf(items, key) < |items|
    {
      for i := 0 to |items|
        invariant forall j | 0 <= j < i :: items[j].device != key
      {
        if items[i].device == key {
          assert IndexOf(items, key) <= i;
          return true;
        }
      }
      return false;
    }

    method CreateInterface(key: string, stored: seq<seq<Sample<Net>>>)
      requires Linked() && Storable(sampleIndex, stored)
      modifies this`items, this`session, this`series, this`traces
      ensures Linked()
      ensures var known := Hidden(key) || IndexOf(old(items), key) < |old(items)|;
              && items == WithNew(known, Info(key, false, 0, 0, stored), old(items))
              && series == WithNew(known, Newborn(sampleIndex, stored), old(series))
              && traces == WithNew(known, Trace([], []), old(traces))
              && session == if known then old(session) else old(session) + 1
    {
      var known := Known(key);
      if Hidden(key) || known {
        return;
      }
      session := session + 1;
      NewbornFits(sampleIndex, Info(key, false, 0, 0, stored));
      AddedIsCoherent(sampleIndex, items, series, traces, Info(key, false, 0, 0, stored),
                      Newborn(sampleIndex, stored), Trace([], []));
      items := [Info(key, false, 0, 0, stored)] + items;
      series := [Newborn(sampleIndex, stored)] + series;
      traces := [Trace([], [])] + traces;
    }

    /** A reading of interface i, once the collector is ready. */
    method Record(i: nat, upload: nat, download: nat)
      requires Linked() && i < |items| && upload < WORD && download < WORD
      modifies this`items, this`series, this`traces
      ensures Linked()
      ensures var s := Sample(Measured(old(items)[i], upload, download), sampleIndex[0].sampleID,
        sampleIndex[0].time, false);
              && items == old(items)[i := Updated(old(items)[i], upload, download, s)]
              && series == old(series)[i := old(series)[i][0 := Receive(old(series)[i][0], s)]]
              && traces == old(traces)[i := Extended(old(traces)[i], upload, download)]
    {
      assert Tied(sampleIndex, items[i], series[i]);
      var cur := Account(items[i], sampleIndex[0], upload, download);
      ghost var data :=
        Sample(Measured(items[i], upload, download), sampleIndex[0].sampleID, sampleIndex[0].time, false);
      RecordIsCoherent(sampleIndex, items, series, traces, i, upload, download, data);
      items, series, traces :=
        items[i := cur], series[i := series[i][0 := Receive(series[i][0], data)]],
        traces[i := Extended(traces[i], upload, download)];
    }

    /** The interface after a reading. */
    method Account(item: Info, e: Entry, upload: nat, download: nat) returns (cur: Info)
      requires |item.samples| == LEVELS && upload < WORD && download < WORD
      ensures cur
        == Updated(item, upload, download, Sample(Measured(item, upload, download), e.sampleID, e.time, false))
    {
      cur := item;
      if cur.last_up == 0 {
        cur := cur.(last_up := upload);
      }
      if cur.last_down == 0 {
        cur := cur.(last_down := download);
      }
      var u, d := Wrap(upload - cur.last_up), Wrap(download - cur.last_down);
      cur := cur.(last_up := upload);
      cur := cur.(last_down := download);
      var data := Sample(Net(u as real, d as real), e.sampleID, e.time, false);
      var deque := [data] + cur.samples[0];
      if |deque| > HISTORY_SIZE {
        deque := deque[..|deque| - 1];
      }
      cur := cur.(samples := cur.samples[0 := deque]);
      assert deque == Push(item.samples[0], data);
    }

    /** The mean of the interface's source deque over the window of the level's index. */
    method HistoryItemAtIndex(x: nat, item: Info, ghost levels: seq<Level<Net>>) returns (sample: Sample<Net>)
      requires 1 <= x < LEVELS && Tied(sampleIndex, item, levels) && AllOrdered(levels)
      ensures sample == Rollup(NET, levels[x].entry, SourceOf(levels, x).deque)
    {
      var e := sampleIndex[x];
      assert WellBased(levels, x);
      var from := item.samples[e.historyIndex];
      var minimumTime := e.time - e.interval;
      var maximumTime := e.time;
      if e.historyIndex == 0 {
        maximumTime := maximumTime + 0.99;
      }
      DequeSpaced(levels, e.historyIndex);
      var u, d, count := ScanWindow(from, minimumTime, maximumTime, sampleIndex[e.historyIndex].interval);
      if count > 0 {
        u := u / count as real;
        d := d / count as real;
      }
      sample := Sample(Net(u, d), e.sampleID, e.time, count == 0);
    }

    method RollUpItem(k: nat, x: nat)
      requires Linked() && k < |items| && 1 <= x < LEVELS && AllOrdered(series[k])
      modifies this`items, this`series
      ensures Linked() && |items| == |old(items)| && series == old(series)[k := RolledUp(old(series)[k], x)]
      ensures OnlySamples(old(items), items)
    {
      assert Tied(sampleIndex, items[k], series[k]) && Accounted(items[k], series[k][0], traces[k]);
      var sample := HistoryItemAtIndex(x, items[k], series[k]);
      var deque := [sample] + items[k].samples[x];
      if |deque| > HISTORY_SIZE {
        deque := deque[..|deque| - 1];
      }
      assert deque == Push(items[k].samples[x], sample);
      var item := items[k].(samples := items[k].samples[x := deque]);
      RolledUpFits(sampleIndex, items[k], series[k], traces[k], x, sample);
      ReplacedIsCoherent(sampleIndex, items, series, traces, k, item, RolledUp(series[k], x), traces[k]);
      assert traces[k := traces[k]] == traces;
      items, series := items[k := item], series[k := RolledUp(series[k], x)];
    }

    method RollUpAll(x: nat)
      requires Valid() && 1 <= x < LEVELS
      modifies this`items, this`series
      ensures Linked() && OnlySamples(old(items), items) && AllRolled(old(series), series, x)
    {
      var k := 0;
      while k < |items|
        invariant 0 <= k <= |items| == |old(items)| && Linked() && |series| == |old(series)|
        invariant OnlySamples(old(items), items)
        invariant forall i | 0 <= i < k :: series[i] == RolledUp(old(series)[i], x)
        invariant forall i | k <= i < |series| :: series[i] == old(series)[i]
      {
        RollUpItem(k, x);
        k := k + 1;
      }
    }

    method Advance(x: nat)
      requires Valid() && 1 <= x < LEVELS
      modifies this`sampleIndex, this`series
      ensures Valid() && sampleIndex == old(sampleIndex)[x := Next(old(sampleIndex)[x])]
      ensures AllMoved(old(series), series, x)
    {
      var e := sampleIndex[x];
      e := e.(sampleID := e.sampleID + 1);
      e := e.(time := e.nextTime);
      e := e.(nextTime := e.nextTime + e.interval);
      StampedIsCoherent(sampleIndex, items, series, traces, x, e);
      forall i | 0 <= i < |series|
        ensures Stamped(series, x, e)[i] == Moved(series[i], x) && AllOrdered(Moved(series[i], x))
      {
        assert Tied(sampleIndex, items[i], series[i]);
        MovedOrdered(series[i], x);
      }
      sampleIndex, series := sampleIndex[x := e], Stamped(series, x, e);
    }

    /** One round of the catch-up loop of level x, for all interfaces. */
    method DoRound(x: nat, earliest: real)
      requires Valid() && 1 <= x < LEVELS
      modifies this`sampleIndex, this`items, this`series
      ensures Valid() && sampleIndex == old(sampleIndex)[x := Next(old(sampleIndex)[x])]
      ensures OnlySamples(old(items), items) && Rounds(old(series), series, x, earliest)
    {
      ghost var before := series;
      Advance(x);
      ghost var moved := series;
      assert forall i | 0 <= i < |series| :: Tied(sampleIndex, items[i], series[i]);
      if sampleIndex[x].time >= earliest {
        RollUpAll(x);
      }
      RoundsInSteps(before, moved, series, x, earliest, sampleIndex[x]);
    }

    lemma OnGrid()
      requires Linked()
      ensures forall i, x | 0 <= i < |items| && 0 <= x < LEVELS ::
        (|series[i]| == LEVELS && series[i][x].entry == sampleIndex[x])
      ensures forall x | 1 <= x < LEVELS :: sampleIndex[x].interval >= 1.0
    {
      forall i, x | 0 <= i < |items| && 0 <= x < LEVELS
        ensures |series[i]| == LEVELS && series[i][x].entry == sampleIndex[x]
      {
        assert Tied(sampleIndex, items[i], series[i]);
      }
      forall x | 1 <= x < LEVELS ensures sampleIndex[x].interval >= 1.0 {
        assert WellBased(Blank(sampleIndex), x);
      }
    }

    method NextRound(x: nat, ghost begin: seq<seq<Level<Net>>>, now: real, earliest: real)
      requires Valid() && 1 <= x < LEVELS && sampleIndex[x].nextTime < now
      requires Orderly(begin) && SameResult(begin, series, x, now, earliest)
      modifies this`sampleIndex, this`items, this`series
      ensures Valid() && OnlySamples(old(items), items) && SameResult(begin, series, x, now, earliest)
      ensures |sampleIndex| == LEVELS && sampleIndex == old(sampleIndex)[x := Next(old(sampleIndex)[x])]
      ensures Distance(sampleIndex[x], now) < old(Distance(sampleIndex[x], now))
    {
      OnGrid();
      ghost var before := series;
      NextIsCloser(sampleIndex[x], now);
      DoRound(x, earliest);
      RoundsKeepResult(begin, before, series, x, now, earliest);
    }

    /** The catch-up loop of level x. */
    method CatchUpDue(x: nat, now: real, earliest: real)
      requires Valid() && 1 <= x < LEVELS
      modifies this`sampleIndex, this`items, this`series
      ensures Valid() && OnlySamples(old(items), items) && SameResult(old(series), series, x, now, earliest)
      ensures sampleIndex == GridAdvanced(old(sampleIndex), x, now) && sampleIndex[x].nextTime >= now
    {
      ghost var begin, grid := series, sampleIndex;
      OnGrid();
      while sampleIndex[x].nextTime < now
        invariant Valid() && OnlySamples(old(items), items) && SameResult(begin, series, x, now, earliest)
        invariant OnTheWay(grid, sampleIndex, x, now)
        decreases Distance(sampleIndex[x], now)
      {
        NextRound(x, begin, now, earliest);
      }
    }

    lemma Enter(x: nat)
      requires Linked() && 1 <= x < LEVELS
      ensures |sampleIndex| == LEVELS && Entering(series, x, sampleIndex[x], sampleIndex[0].time)
    {
      OnGrid();
    }

    method CatchUp(x: nat, now: real)
      requires Valid() && 1 <= x < LEVELS
      modifies this`sampleIndex, this`items, this`series
      ensures Valid() && OnlySamples(old(items), items) && LevelPassed(old(series), series, x, now)
      ensures sampleIndex == PassGrid(old(sampleIndex), x, now)
    {
      Enter(x);
      if sampleIndex[0].time < sampleIndex[x].nextTime {
        NotDueIsPassed(series, x, now, sampleIndex[x], sampleIndex[0].time);
        return;
      }
      CatchUpNow(x, now);
    }

    method CatchUpNow(x: nat, now: real)
      requires Valid() && 1 <= x < LEVELS && |sampleIndex| == LEVELS && sampleIndex[0].time >= sampleIndex[x].nextTime
      modifies this`sampleIndex, this`items, this`series
      ensures Valid() && OnlySamples(old(items), items) && LevelPassed(old(series), series, x, now)
      ensures sampleIndex == GridAdvanced(old(sampleIndex), x, now)
    {
      ghost var begin, e, live := series, sampleIndex[x], sampleIndex[0].time;
      Enter(x);
      var earliest := now - HISTORY_SIZE as real * sampleIndex[x].interval;
      assert earliest == Earliest(now, e.interval);
      CatchUpDue(x, now, earliest);
      Enter(x);
      CaughtUpAllPassed(begin, series, x, now, e, sampleIndex[x], live);
    }

    /** Levels `first` to 7 of `updateHistory`; `nows` are its clock readings, one for each level. */
    method PassLevels(first: nat, nows: seq<real>)
      requires Valid() && |nows| == LEVELS && 1 <= first <= LEVELS
      modifies this`sampleIndex, this`items, this`series
      ensures Valid() && OnlySamples(old(items), items) && PassDone(old(series), first, series, nows)
      ensures sampleIndex == GridPass(old(sampleIndex), first, nows)
    {
      ghost var begin, grid, entries := series, sampleIndex, items;
      PassBegins(first, nows);
      var x := first;
      while x < LEVELS
        invariant UpTo(first, x, begin, grid, nows) && OnlySamples(entries, items)
      {
        ghost var before := items;
        PassOneLevel(first, x, begin, grid, nows);
        OnlySamplesTransitive(entries, before, items);
        x := x + 1;
      }
      PassEnds(begin, first, series, x, nows);
      GridEnds(grid, first, sampleIndex, x, nows);
    }

    /** The state of the pass before level x. */
    ghost predicate UpTo(
      first: nat, x: nat, begin: seq<seq<Level<Net>>>, grid: seq<Entry>, nows: seq<real>)
      reads this
    {
      && Valid() && Orderly(begin) && 1 <= first <= x <= LEVELS && |nows| == LEVELS
      && SamePass(begin, first, series, x, nows) && SameGrid(grid, first, sampleIndex, x, nows)
    }

    lemma PassBegins(first: nat, nows: seq<real>)
      requires Valid() && |nows| == LEVELS && 1 <= first <= LEVELS
      ensures UpTo(first, first, series, sampleIndex, nows) && OnlySamples(items, items)
    {
    }

    method PassOneLevel(first: nat, x: nat, ghost begin: seq<seq<Level<Net>>>, ghost grid: seq<Entry>, nows: seq<real>)
      requires UpTo(first, x, begin, grid, nows) && x < LEVELS
      modifies this`sampleIndex, this`items, this`series
      ensures UpTo(first, x + 1, begin, grid, nows) && OnlySamples(old(items), items)
    {
      ghost var before := series;
      CatchUp(x, nows[x]);
      LevelKeepsPass(begin, first, before, series, x, nows);
    }

    /** What interface i ever recorded is what its counters did, unless a counter fell. */
    lemma TrafficIsConserved(i: nat)
      requires Linked() && i < |items|
      ensures |series[i]| == LEVELS
      ensures SumUp(series[i][0].log) == (items[i].last_up - FirstNonZero(traces[i].ups)) as real
        <==> NeverFalls(0, traces[i].ups)
      ensures SumDown(series[i][0].log) == (items[i].last_down - FirstNonZero(traces[i].downs)) as real
        <==> NeverFalls(0, traces[i].downs)
    {
      assert Accounted(items[i], series[i][0], traces[i]);
      CountersAreConserved(traces[i].ups);
      CountersAreConserved(traces[i].downs);
    }

    method PrepareUpdate()
      requires Linked()
      modifies this`sampleIndex, this`items, this`series
      ensures Linked()
      ensures if ready
              then Idled(old(items), items)
                   && sampleIndex == old(sampleIndex)[0 := Prepared(old(sampleIndex)[0])]
                   && series == Stamped(old(series), 0, Prepared(old(sampleIndex)[0]))
              else items == old(items) && sampleIndex == old(sampleIndex) && series == old(series)
    {
      if !ready {
        return;
      }
      var e := Prepared(sampleIndex[0]);
      OnGrid();
      StampedIsCoherent(sampleIndex, items, series, traces, 0, e);
      sampleIndex, series := sampleIndex[0 := e], Stamped(series, 0, e);
      ClearActive();
    }

    method ClearActive()
      requires Linked()
      modifies this`items
      ensures Linked() && Idled(old(items), items)
    {
      for i := 0 to |items|
        invariant Linked() && |items| == |old(items)|
        invariant forall j | 0 <= j < i :: items[j] == old(items)[j].(active := false)
        invariant forall j | i <= j < |items| :: items[j] == old(items)[j]
      {
        ActiveIsFree(sampleIndex, items, series, traces, i, false);
        items := items[i := items[i].(active := false)];
      }
    }

    /** One reading. Nothing is recorded before the collector is ready, but the interface is already listed. */
    method ProcessInterface(key: string, upload: nat, download: nat, stored: seq<seq<Sample<Net>>>)
      requires Linked() && Storable(sampleIndex, stored) && upload < WORD && download < WORD
      modifies this`items, this`session, this`series, this`traces
      ensures Linked()
      ensures Ignored(key) ==> items == old(items) && series == old(series) && traces == old(traces)
      ensures !Ignored(key) ==>
        var p := IndexOf(old(items), key);
        var known := p < |old(items)|;
        Seen(WithNew(known, Info(key, false, 0, 0, stored), old(items)),
             WithNew(known, Newborn(sampleIndex, stored), old(series)),
             WithNew(known, Trace([], []), old(traces)),
             items, series, traces, if known then p else 0, sampleIndex[0], ready, upload, download)
    {
      if Ignored(key) {
        return;
      }
      CreateInterface(key, stored);
      var p := Position(key);
      ActiveIsFree(sampleIndex, items, series, traces, p, true);
      assert Tied(sampleIndex, items[p], series[p]);
      items := items[p := items[p].(active := true)];
      if !ready {
        return;
      }
      Record(p, upload, download);
    }

    method Position(key: string) returns (p: nat)
      requires IndexOf(items, key) < |items|
      ensures p == IndexOf(items, key)
    {
      p := 0;
      while items[p].device != key
        invariant p <= IndexOf(items, key)
        decreases |items| - p
      {
        p := p + 1;
      }
    }

    /** One reading of a tick under way. */
    method ProcessOne(
      t: real, r: Reading, ghost entries0: seq<Entry>, ghost items0: seq<Info>, ghost series0: seq<seq<Level<Net>>>,
                      ghost split: Split, ghost done: seq<Reading>) returns (ghost split': Split)
      requires Linked() && ready && Storable(sampleIndex, r.stored) && r.upload < WORD && r.download < WORD
      requires TickOf(entries0, sampleIndex) && sampleIndex[0].time == t && !HasKey(done, r.key)
      requires Underway(entries0, items0, series0, split, t, done) && Joins(split, items, series)
      modifies this`items, this`session, this`series, this`traces
      ensures Linked() && Underway(entries0, items0, series0, split', t, done + [r]) && Joins(split', items, series)
    {
      ghost var before, levels, trail := items, series, traces;
      OnGrid();
      ProcessInterface(r.key, r.upload, r.download, r.stored);
      if Ignored(r.key) {
        split' := split;
        IgnoredStep(entries0, items0, series0, split, t, done, r);
      } else if IndexOf(before, r.key) < |before| {
        split' := SeenKnown(entries0, items0, series0, split, before, levels, trail, items, series, traces,
          sampleIndex, done, r);
      } else {
        split' := SeenNew(entries0, items0, series0, split, before, levels, trail, items, series, traces,
          sampleIndex, done, r);
      }
    }

    method ProcessAll(t: real, readings: seq<Reading>, ghost entries0: seq<Entry>, ghost items0: seq<Info>,
                      ghost series0: seq<seq<Level<Net>>>)
      returns (ghost split: Split)
      requires Linked() && ready && Readable(sampleIndex, readings)
      requires TickOf(entries0, sampleIndex) && sampleIndex[0].time == t
      requires Underway(entries0, items0, series0, Split([], [], items, series), t, [])
      modifies this`items, this`session, this`series, this`traces
      ensures Linked() && Underway(entries0, items0, series0, split, t, readings) && Joins(split, items, series)
    {
      split := Split([], [], items, series);
      for i := 0 to |readings|
        invariant Linked() && Underway(entries0, items0, series0, split, t, readings[..i])
          && Joins(split, items, series)
      {
        assert readings[..i + 1] == readings[..i] + [readings[i]] && !HasKey(readings[..i], readings[i].key);
        split := ProcessOne(t, readings[i], entries0, items0, series0, split, readings[..i]);
      }
      assert readings[..|readings|] == readings;
    }

    /**
     * A whole tick: the scheduler's time, all readings, and the history pass. Every interface that was known
     * before goes through exactly one tick of the pyramid, with its own reading or none.
     */
    method Update(t: real, readings: seq<Reading>, nows: seq<real>)
      requires Valid() && ready && Readable(sampleIndex, readings) && |nows| == LEVELS
      requires t >= sampleIndex[0].time + 1.0
      modifies this`sampleIndex, this`items, this`session, this`series, this`traces
      ensures Valid() && Ticked(old(sampleIndex), old(items), old(series), items, series, t, readings, nows)
      ensures ready && sampleIndex == TickGrid(old(sampleIndex), t, nows)
    {
      ghost var entries0, items0, series0 := sampleIndex, items, series;
      OnGrid();
      StartTick(t, readings);
      Begins(entries0, items0, series0, items, series, t);
      ghost var split := ProcessAll(t, readings, entries0, items0, series0);
      UnderwayIsOrderly(entries0, items0, series0, split, t, readings);
      ghost var items1, series1 := items, series;
      PassLevels(1, nows);
      UnderwayIsTicked(entries0, items0, series0, split, items1, series1, items, series, t, readings, nows);
    }

    /** `updateNextTimes` and `prepareUpdate`. */
    method StartTick(t: real, ghost readings: seq<Reading>)
      requires Linked() && ready && Readable(sampleIndex, readings)
      modifies this`sampleIndex, this`items, this`series
      ensures Linked() && Idled(old(items), items) && Readable(sampleIndex, readings)
      ensures TickOf(old(sampleIndex), sampleIndex) && sampleIndex[0].time == t
      ensures forall i | 0 <= i < |old(series)| :: |old(series)[i]| == LEVELS
      ensures series == Started(old(series), t)
    {
      OnGrid();
      var e := sampleIndex[0].(nextTime := t);
      StampedIsCoherent(sampleIndex, items, series, traces, 0, e);
      sampleIndex, series := sampleIndex[0 := e], Stamped(series, 0, e);
      PrepareUpdate();
      StampedTwice(old(series), e, t);
      StillReadable(old(sampleIndex), Prepared(e), readings);
      assert sampleIndex == old(sampleIndex)[0 := Prepared(e)];
    }
  }

  // ------------------------------------------------------------------
  // A tick of many interfaces is a tick of each.
  // ------------------------------------------------------------------

  /** A reading, and what the database holds of an interface of that name. */
  datatype Reading = Reading(key: string, upload: nat, download: nat, stored: seq<seq<Sample<Net>>>)

  ghost predicate HasKey(readings: seq<Reading>, key: string) {
    exists r :: r in readings && r.key == key
  }

  /** No interface is read twice in a tick. */
  ghost predicate Readable(entries: seq<Entry>, readings: seq<Reading>) {
    && (forall r | r in readings :: r.upload < WORD && r.download < WORD && Storable(entries, r.stored))
    && (forall i, j | 0 <= i < j < |readings| :: readings[i].key != readings[j].key)
  }

  /** What the readings of a tick say about one interface. */
  function ReadingOf(item: Info, readings: seq<Reading>): Option<Net> {
    if readings == [] then None
    else
      var r := readings[|readings| - 1];
      if r.key == item.device && !Ignored(r.key) then Some(Measured(item, r.upload, r.download))
      else ReadingOf(item, readings[..|readings| - 1])
  }

  ghost predicate Followed(
    item0: Info, levels0: seq<Level<Net>>, item: Info, levels: seq<Level<Net>>, t: real, readings: seq<Reading>)
  {
    && |levels0| == LEVELS && item.device == item0.device && item.active == ReadingOf(item0, readings).Some?
    && levels == LiveSample(levels0, t, ReadingOf(item0, readings))
    && (ReadingOf(item0, readings).None? ==> item.last_up == item0.last_up && item.last_down == item0.last_down)
  }

  /** The interfaces of a tick under way: new ones stand in front of those that were known. */
  datatype Split = Split(added: seq<Info>, addedSeries: seq<seq<Level<Net>>>, known: seq<Info>,
    knownSeries: seq<seq<Level<Net>>>)

  ghost predicate Joins(split: Split, items: seq<Info>, series: seq<seq<Level<Net>>>) {
    items == split.added + split.known && series == split.addedSeries + split.knownSeries
  }

  /** Part of the readings have been processed; `entries0` is the grid before the tick. */
  ghost predicate Underway(
    entries0: seq<Entry>, items0: seq<Info>, series0: seq<seq<Level<Net>>>, split: Split, t: real,
    readings: seq<Reading>)
  {
    && OldOnes(items0, series0, split.known, split.knownSeries, t, readings)
    && Found(entries0, split.added, split.addedSeries, t, readings)
  }

  /** A new interface starts on the grid with what the database holds of it, and a first sample of 0. */
  ghost predicate MetIn(entries0: seq<Entry>, item: Info, levels: seq<Level<Net>>, t: real, r: Reading) {
    && r.key == item.device && item.active && |entries0| == |r.stored| == LEVELS
    && levels == LiveSample(Newborn(entries0, r.stored), t, Some(Net(0.0, 0.0)))
  }

  ghost predicate Met(entries0: seq<Entry>, item: Info, levels: seq<Level<Net>>, t: real, readings: seq<Reading>) {
    exists r :: r in readings && MetIn(entries0, item, levels, t, r)
  }

  ghost predicate OldOnes(
    items0: seq<Info>, series0: seq<seq<Level<Net>>>, items: seq<Info>, series: seq<seq<Level<Net>>>, t: real,
    readings: seq<Reading>)
  {
    && |items0| == |series0| == |items| == |series|
    && forall i | 0 <= i < |items| :: Followed(items0[i], series0[i], items[i], series[i], t, readings)
  }

  /** A reading of another interface. */
  lemma OldOnesStay(
    items0: seq<Info>, series0: seq<seq<Level<Net>>>, items: seq<Info>, series: seq<seq<Level<Net>>>, t: real,
    readings: seq<Reading>, r: Reading)
    requires OldOnes(items0, series0, items, series, t, readings)
    requires Ignored(r.key) || forall i | 0 <= i < |items| :: items[i].device != r.key
    ensures OldOnes(items0, series0, items, series, t, readings + [r])
  {
    forall i | 0 <= i < |items| ensures Followed(items0[i], series0[i], items[i], series[i], t, readings + [r]) {
      FollowedOther(items0[i], series0[i], items[i], series[i], t, readings, r);
    }
  }

  /** A reading of the interface at p. */
  lemma OldOneRead(
    items0: seq<Info>, series0: seq<seq<Level<Net>>>, items: seq<Info>, series: seq<seq<Level<Net>>>, t: real,
    readings: seq<Reading>, r: Reading, p: nat, item: Info, s: Sample<Net>)
    requires OldOnes(items0, series0, items, series, t, readings) && p < |items|
    requires forall i | 0 <= i < |items| :: i != p ==> items[i].device != r.key
    requires item.device == items[p].device == r.key && item.active && !Ignored(r.key) && !HasKey(readings, r.key)
    requires |items[p].samples| == LEVELS && |series0[p]| == LEVELS
    requires s == Sample(Measured(items[p].(active := true), r.upload, r.download), series0[p][0].entry.sampleID + 1,
      t, false)
    ensures OldOnes(items0, series0, items[p := item], series[p := series[p][0 := Receive(series[p][0], s)]], t,
      readings + [r])
  {
    var items', series' := items[p := item], series[p := series[p][0 := Receive(series[p][0], s)]];
    forall i | 0 <= i < |items| ensures Followed(items0[i], series0[i], items'[i], series'[i], t, readings + [r]) {
      if i == p {
        FollowedReading(items0[p], series0[p], items[p], series[p], t, readings, r, item, s);
      } else {
        FollowedOther(items0[i], series0[i], items[i], series[i], t, readings, r);
      }
    }
  }

  /** All of these were first met in the readings, and are in order. */
  ghost predicate Found(
    entries0: seq<Entry>, items: seq<Info>, series: seq<seq<Level<Net>>>, t: real, readings: seq<Reading>)
  {
    && |items| == |series|
    && forall j | 0 <= j < |items| :: AllOrdered(series[j]) && Met(entries0, items[j], series[j], t, readings)
  }

  lemma MoreMet(entries0: seq<Entry>, item: Info, levels: seq<Level<Net>>, t: real, readings: seq<Reading>, r: Reading)
    requires Met(entries0, item, levels, t, readings) || MetIn(entries0, item, levels, t, r)
    ensures Met(entries0, item, levels, t, readings + [r])
  {
    if Met(entries0, item, levels, t, readings) {
      var q :| q in readings && MetIn(entries0, item, levels, t, q);
      assert q in readings + [r];
    } else {
      assert r in readings + [r];
    }
  }

  lemma StillFound(
    entries0: seq<Entry>, items: seq<Info>, series: seq<seq<Level<Net>>>, t: real, readings: seq<Reading>, r: Reading)
    requires Found(entries0, items, series, t, readings)
    ensures Found(entries0, items, series, t, readings + [r])
  {
    forall j | 0 <= j < |items| ensures Met(entries0, items[j], series[j], t, readings + [r]) {
      MoreMet(entries0, items[j], series[j], t, readings, r);
    }
  }

  lemma OneMoreFound(
    entries0: seq<Entry>, item: Info, levels: seq<Level<Net>>, items: seq<Info>, series: seq<seq<Level<Net>>>, t: real,
    readings: seq<Reading>, r: Reading)
    requires Found(entries0, items, series, t, readings) && AllOrdered(levels) && MetIn(entries0, item, levels, t, r)
    ensures Found(entries0, [item] + items, [levels] + series, t, readings + [r])
  {
    StillFound(entries0, items, series, t, readings, r);
    MoreMet(entries0, item, levels, t, readings, r);
    forall j | 0 <= j <= |items|
      ensures AllOrdered(([levels] + series)[j]) && Met(entries0, ([item] + items)[j], ([levels] + series)[j], t,
        readings + [r])
    {
      if j > 0 {
        assert AllOrdered(series[j - 1]) && Met(entries0, items[j - 1], series[j - 1], t, readings + [r]);
      }
    }
  }

  lemma UpdateRight<T>(a: seq<T>, b: seq<T>, p: nat, v: T)
    requires |a| <= p < |a + b|
    ensures (a + b)[p := v] == a + b[p - |a| := v]
  {
  }

  lemma JoinLeft<T>(x: T, a: seq<T>, b: seq<T>)
    ensures [x] + (a + b) == ([x] + a) + b
  {
  }

  /** Known interfaces have gone through one tick; new ones through their first, from what was stored of them. */
  ghost predicate Ticked(
    entries0: seq<Entry>, items0: seq<Info>, series0: seq<seq<Level<Net>>>, items: seq<Info>,
    series: seq<seq<Level<Net>>>, t: real, readings: seq<Reading>, nows: seq<real>)
    requires Orderly(series0) && |nows| == LEVELS
  {
    && |items0| == |series0| && |items0| <= |items| == |series|
    && var k := |items| - |items0|;
       && SameDevices(items0, items[k..]) && ActiveIfRead(items0, items[k..], readings)
       && KnownTicked(items0, series0, series[k..], t, readings, nows)
       && FirstTicks(entries0, items[..k], series[..k], t, readings, nows)
  }

  ghost predicate ActiveIfRead(items0: seq<Info>, items: seq<Info>, readings: seq<Reading>) {
    |items| == |items0| && forall i | 0 <= i < |items| :: items[i].active == ReadingOf(items0[i], readings).Some?
  }

  ghost predicate KnownTicked(
    items0: seq<Info>, series0: seq<seq<Level<Net>>>, series: seq<seq<Level<Net>>>, t: real,
    readings: seq<Reading>, nows: seq<real>)
    requires Orderly(series0) && |nows| == LEVELS
  {
    && |items0| == |series0| == |series|
    && forall i | 0 <= i < |series| :: series[i] == Tick(NET, series0[i], t, ReadingOf(items0[i], readings), nows)
  }

  ghost predicate FirstTicks(
    entries0: seq<Entry>, items: seq<Info>, series: seq<seq<Level<Net>>>, t: real, readings: seq<Reading>,
    nows: seq<real>)
    requires |nows| == LEVELS
  {
    && |items| == |series|
    && forall j | 0 <= j < |items| :: FirstTick(entries0, items[j], series[j], t, readings, nows)
  }

  ghost predicate FirstTick(
    entries0: seq<Entry>, item: Info, levels: seq<Level<Net>>, t: real, readings: seq<Reading>, nows: seq<real>)
    requires |nows| == LEVELS
  {
    exists r :: r in readings && FirstTickOf(entries0, item, levels, t, r, nows)
  }

  ghost predicate FirstTickOf(
    entries0: seq<Entry>, item: Info, levels: seq<Level<Net>>, t: real, r: Reading, nows: seq<real>)
    requires |nows| == LEVELS
  {
    && r.key == item.device && item.active && |entries0| == |r.stored| == LEVELS && Shaped(Newborn(entries0, r.stored))
    && levels == Tick(NET, Newborn(entries0, r.stored), t, Some(Net(0.0, 0.0)), nows)
  }

  lemma {:induction false} Unread(item: Info, readings: seq<Reading>)
    requires !HasKey(readings, item.device)
    ensures ReadingOf(item, readings) == None
    decreases |readings|
  {
    if readings != [] {
      var r := readings[|readings| - 1];
      assert r in readings;
      assert !HasKey(readings[..|readings| - 1], item.device);
      Unread(item, readings[..|readings| - 1]);
    }
  }

  lemma ReadingOfLast(item: Info, readings: seq<Reading>, r: Reading)
    ensures ReadingOf(item, readings + [r])
      == if r.key == item.device && !Ignored(r.key) then Some(Measured(item, r.upload, r.download))
         else ReadingOf(item, readings)
  {
    assert (readings + [r])[..|readings|] == readings;
  }

  /** An interface that is read takes its live sample. */
  lemma FollowedReading(
    item0: Info, levels0: seq<Level<Net>>, item: Info, levels: seq<Level<Net>>, t: real, readings: seq<Reading>,
    r: Reading, item': Info, s: Sample<Net>)
    requires Followed(item0, levels0, item, levels, t, readings) && |item.samples| == LEVELS
    requires r.key == item.device && !Ignored(r.key) && !HasKey(readings, r.key)
    requires s == Sample(Measured(item.(active := true), r.upload, r.download), levels0[0].entry.sampleID + 1, t, false)
    requires item'.device == item.device && item'.active
    ensures Followed(item0, levels0, item', levels[0 := Receive(levels[0], s)], t, readings + [r])
  {
    Unread(item0, readings);
    ReadingOfLast(item0, readings, r);
  }

  lemma IgnoredStep(
    entries0: seq<Entry>, items0: seq<Info>, series0: seq<seq<Level<Net>>>, split: Split, t: real,
    readings: seq<Reading>, r: Reading)
    requires Underway(entries0, items0, series0, split, t, readings) && Ignored(r.key)
    ensures Underway(entries0, items0, series0, split, t, readings + [r])
  {
    OldOnesStay(items0, series0, split.known, split.knownSeries, t, readings, r);
    StillFound(entries0, split.added, split.addedSeries, t, readings, r);
  }

  lemma OthersDiffer(added: seq<Info>, known: seq<Info>, q: nat)
    requires Distinct(added + known) && q < |known|
    ensures forall i | 0 <= i < |known| :: i != q ==> known[i].device != known[q].device
  {
    var items, k := added + known, |added|;
    forall i | 0 <= i < |known| && i != q ensures known[i].device != known[q].device {
      assert items[k + i] == known[i] && items[k + q] == known[q];
    }
  }

  /** The interface was known, at p; it is then one of those that were known before the tick. */
  lemma KnownStep(
    entries0: seq<Entry>, items0: seq<Info>, series0: seq<seq<Level<Net>>>, split: Split, items: seq<Info>,
    series: seq<seq<Level<Net>>>,
    p: nat, item: Info, s: Sample<Net>, t: real, readings: seq<Reading>, r: Reading) returns (split': Split)
    requires Underway(entries0, items0, series0, split, t, readings) && Joins(split, items, series)
    requires !Ignored(r.key) && !HasKey(readings, r.key) && Distinct(items) && p < |items| == |series|
    requires items[p].device == item.device == r.key && item.active && |items[p].samples| == |series[p]| == LEVELS
    requires s == Sample(Measured(items[p].(active := true), r.upload, r.download), series[p][0].entry.sampleID, t,
      false)
    ensures Underway(entries0, items0, series0, split', t, readings + [r])
    ensures Joins(split', items[p := item], series[p := series[p][0 := Receive(series[p][0], s)]])
  {
    forall j | 0 <= j < |split.added| ensures items[j].device != r.key {
      assert items[j] == split.added[j] && Met(entries0, split.added[j], split.addedSeries[j], t, readings);
    }
    var q := p - |split.added|;
    var levels := series[p][0 := Receive(series[p][0], s)];
    split' := split.(known := split.known[q := item], knownSeries := split.knownSeries[q := levels]);
    UpdateRight(split.added, split.known, p, item);
    UpdateRight(split.addedSeries, split.knownSeries, p, levels);
    OthersDiffer(split.added, split.known, q);
    Unread(items0[q], readings);
    OldOneRead(items0, series0, split.known, split.knownSeries, t, readings, r, q, item, s);
    StillFound(entries0, split.added, split.addedSeries, t, readings, r);
  }

  lemma FollowedOther(
    item0: Info, levels0: seq<Level<Net>>, item: Info, levels: seq<Level<Net>>, t: real, readings: seq<Reading>,
    r: Reading)
    requires Followed(item0, levels0, item, levels, t, readings) && (item.device != r.key || Ignored(r.key))
    ensures Followed(item0, levels0, item, levels, t, readings + [r])
  {
    ReadingOfLast(item0, readings, r);
  }

  lemma NewbornOrdered(entries: seq<Entry>, stored: seq<seq<Sample<Net>>>, s: Sample<Net>)
    requires |entries| == LEVELS && Shaped(Blank(entries)) && Storable(entries, stored)
    requires s.time == entries[0].time && s.sampleID == entries[0].sampleID
    ensures var levels := Newborn(entries, stored); AllOrdered(levels[0 := Receive(levels[0], s)])
  {
    var levels := Newborn(entries, stored);
    var after := levels[0 := Receive(levels[0], s)];
    forall x | 1 <= x < LEVELS ensures WellBased(after, x) && Ordered(after[x]) {
      assert WellBased(Blank(entries), x) && StorableAt(entries[x], stored[x]);
    }
  }

  lemma NewStep(
    entries0: seq<Entry>, items0: seq<Info>, series0: seq<seq<Level<Net>>>, split: Split, items: seq<Info>,
    series: seq<seq<Level<Net>>>,
    item: Info, levels: seq<Level<Net>>, t: real, readings: seq<Reading>, r: Reading) returns (split': Split)
    requires Underway(entries0, items0, series0, split, t, readings) && Joins(split, items, series)
    requires MetIn(entries0, item, levels, t, r) && AllOrdered(levels)
    requires forall i | 0 <= i < |items| :: items[i].device != r.key
    ensures Underway(entries0, items0, series0, split', t, readings + [r])
      && Joins(split', [item] + items, [levels] + series)
  {
    split' := split.(added := [item] + split.added, addedSeries := [levels] + split.addedSeries);
    JoinLeft(item, split.added, split.known);
    JoinLeft(levels, split.addedSeries, split.knownSeries);
    forall i | 0 <= i < |split.known| ensures split.known[i].device != r.key {
      assert split.known[i] == items[|split.added| + i];
    }
    OldOnesStay(items0, series0, split.known, split.knownSeries, t, readings, r);
    OneMoreFound(entries0, item, levels, split.added, split.addedSeries, t, readings, r);
  }

  /** The grid at the start of a tick. */
  predicate TickOf(before: seq<Entry>, after: seq<Entry>) {
    && |before| == |after| == LEVELS
    && after == before[0 := before[0].(time := after[0].time, nextTime := after[0].time,
      sampleID := before[0].sampleID + 1)]
  }

  lemma SeenKnown(
    entries0: seq<Entry>, items0: seq<Info>, series0: seq<seq<Level<Net>>>, split: Split,
    items: seq<Info>, series: seq<seq<Level<Net>>>, traces: seq<Trace>,
    items': seq<Info>, series': seq<seq<Level<Net>>>, traces': seq<Trace>,
    entries: seq<Entry>, readings: seq<Reading>, r: Reading) returns (split': Split)
    requires |entries| == LEVELS && AllTied(entries, items, series)
    requires Underway(entries0, items0, series0, split, entries[0].time, readings) && Joins(split, items, series)
    requires !Ignored(r.key) && !HasKey(readings, r.key) && Distinct(items) && IndexOf(items, r.key) < |items|
    requires Seen(items, series, traces, items', series', traces', IndexOf(items, r.key), entries[0], true, r.upload,
      r.download)
    ensures Underway(entries0, items0, series0, split', entries[0].time, readings + [r])
      && Joins(split', items', series')
  {
    var p, e := IndexOf(items, r.key), entries[0];
    assert Tied(entries, items[p], series[p]);
    var s := Sample(Measured(items[p].(active := true), r.upload, r.download), e.sampleID, e.time, false);
    split' := KnownStep(entries0, items0, series0, split, items, series, p, items'[p], s, e.time, readings, r);
  }

  lemma SeenNew(
    entries0: seq<Entry>, items0: seq<Info>, series0: seq<seq<Level<Net>>>, split: Split,
    items: seq<Info>, series: seq<seq<Level<Net>>>, traces: seq<Trace>,
    items': seq<Info>, series': seq<seq<Level<Net>>>, traces': seq<Trace>,
    entries: seq<Entry>, readings: seq<Reading>, r: Reading) returns (split': Split)
    requires |entries| == LEVELS && Shaped(Blank(entries)) && Storable(entries, r.stored)
    requires TickOf(entries0, entries)
    requires Underway(entries0, items0, series0, split, entries[0].time, readings) && Joins(split, items, series)
    requires IndexOf(items, r.key) == |items|
    requires Seen([Info(r.key, false, 0, 0, r.stored)] + items, [Newborn(entries, r.stored)] + series,
                  [Trace([], [])] + traces, items', series', traces', 0, entries[0], true, r.upload, r.download)
    ensures Underway(entries0, items0, series0, split', entries[0].time, readings + [r])
      && Joins(split', items', series')
  {
    var e, levels := entries[0], FirstLevels(entries, r);
    BornIsMet(entries0, entries, r);
    assert series' == [levels] + series && items' == [items'[0]] + items;
    split' := NewStep(entries0, items0, series0, split, items, series, items'[0], levels, e.time, readings, r);
  }

  /** A new interface after its first reading. */
  ghost function FirstLevels(entries: seq<Entry>, r: Reading): seq<Level<Net>>
    requires |entries| == |r.stored| == LEVELS
  {
    var born, e := Newborn(entries, r.stored), entries[0];
    var item := Info(r.key, true, 0, 0, r.stored);
    born[0 := Receive(born[0], Sample(Measured(item, r.upload, r.download), e.sampleID, e.time, false))]
  }

  lemma BornIsMet(entries0: seq<Entry>, entries: seq<Entry>, r: Reading)
    requires |entries| == LEVELS && Shaped(Blank(entries)) && Storable(entries, r.stored) && TickOf(entries0, entries)
    ensures AllOrdered(FirstLevels(entries, r))
    ensures FirstLevels(entries, r)
      == LiveSample(Newborn(entries0, r.stored), entries[0].time, Some(Net(0.0, 0.0)))
  {
    var item := Info(r.key, true, 0, 0, r.stored);
    var s := Sample(Measured(item, r.upload, r.download), entries[0].sampleID, entries[0].time, false);
    NewbornOrdered(entries, r.stored, s);
    assert s.values == Net(0.0, 0.0);
  }

  /** All interfaces at the start of a tick, before any reading. */
  ghost function Started(series: seq<seq<Level<Net>>>, t: real): seq<seq<Level<Net>>>
    requires forall i | 0 <= i < |series| :: |series[i]| == LEVELS
  {
    seq(|series|, i requires 0 <= i < |series| && |series[i]| == LEVELS => LiveSample(series[i], t, None))
  }

  lemma StampedTwice(series: seq<seq<Level<Net>>>, e: Entry, t: real)
    requires forall i | 0 <= i < |series| :: |series[i]| == LEVELS && series[i][0].entry.(nextTime := t) == e
    ensures Stamped(Stamped(series, 0, e), 0, Prepared(e)) == Started(series, t)
  {
    var after := Stamped(Stamped(series, 0, e), 0, Prepared(e));
    forall i | 0 <= i < |series| ensures after[i] == LiveSample<Net>(series[i], t, None) {
      var moved := series[i][0].(entry := Prepared(e));
      assert after[i] == series[i][0 := series[i][0].(entry := e)][0 := moved] == series[i][0 := moved];
    }
  }

  lemma StillReadable(entries: seq<Entry>, e: Entry, readings: seq<Reading>)
    requires |entries| == LEVELS && Readable(entries, readings)
    ensures Readable(entries[0 := e], readings)
  {
    forall r | r in readings ensures Storable(entries[0 := e], r.stored) {
      assert Storable(entries, r.stored);
    }
  }

  lemma Begins(
    entries0: seq<Entry>, items0: seq<Info>, series0: seq<seq<Level<Net>>>, items: seq<Info>,
    series: seq<seq<Level<Net>>>, t: real)
    requires |items0| == |series0| && Idled(items0, items)
    requires forall i | 0 <= i < |series0| :: |series0[i]| == LEVELS
    requires series == Started(series0, t)
    ensures Underway(entries0, items0, series0, Split([], [], items, series), t, [])
      && Joins(Split([], [], items, series), items, series)
  {
  }

  lemma UnderwayIsOrderly(
    entries0: seq<Entry>, items0: seq<Info>, series0: seq<seq<Level<Net>>>, split: Split, t: real,
    readings: seq<Reading>)
    requires Orderly(series0) && Underway(entries0, items0, series0, split, t, readings)
    requires forall i | 0 <= i < |series0| :: t >= series0[i][0].entry.time + 1.0
    ensures Orderly(split.addedSeries + split.knownSeries)
  {
    forall i | 0 <= i < |split.known| ensures AllOrdered(split.knownSeries[i]) {
      assert AllOrdered(series0[i]) && Followed(items0[i], series0[i], split.known[i], split.knownSeries[i], t,
        readings);
      LiveSampleOrdered(series0[i], t, ReadingOf(items0[i], readings));
    }
    JoinOrderly(split.addedSeries, split.knownSeries);
  }

  lemma JoinOrderly(a: seq<seq<Level<Net>>>, b: seq<seq<Level<Net>>>)
    requires Orderly(a) && Orderly(b)
    ensures Orderly(a + b)
  {
    forall i | 0 <= i < |a + b| ensures AllOrdered((a + b)[i]) {
      if i >= |a| {
        assert (a + b)[i] == b[i - |a|];
      }
    }
  }

  lemma FollowedIsTicked(
    item0: Info, levels0: seq<Level<Net>>, item: Info, levels: seq<Level<Net>>, t: real, readings: seq<Reading>,
    nows: seq<real>)
    requires AllOrdered(levels0) && AllOrdered(levels) && |nows| == LEVELS
    requires Followed(item0, levels0, item, levels, t, readings)
    ensures Pass(NET, levels, 1, nows) == Tick(NET, levels0, t, ReadingOf(item0, readings), nows)
  {
  }

  lemma OneIsTicked(
    items0: seq<Info>, series0: seq<seq<Level<Net>>>, split: Split, series: seq<seq<Level<Net>>>,
    series': seq<seq<Level<Net>>>, t: real, readings: seq<Reading>, nows: seq<real>, i: nat)
    requires Orderly(series0) && Orderly(series) && |nows| == LEVELS && i < |series0|
    requires OldOnes(items0, series0, split.known, split.knownSeries, t, readings)
    requires series == split.addedSeries + split.knownSeries && PassDone(series, 1, series', nows)
    ensures series'[|split.addedSeries| + i] == Tick(NET, series0[i], t, ReadingOf(items0[i], readings), nows)
  {
    var j := |split.addedSeries| + i;
    assert series[j] == split.knownSeries[i];
    assert Followed(items0[i], series0[i], split.known[i], split.knownSeries[i], t, readings);
    assert AllOrdered(series0[i]) && AllOrdered(series[j]);
    FollowedIsTicked(items0[i], series0[i], split.known[i], series[j], t, readings, nows);
  }

  lemma UnderwayIsTicked(
    entries0: seq<Entry>, items0: seq<Info>, series0: seq<seq<Level<Net>>>, split: Split, items: seq<Info>,
    series: seq<seq<Level<Net>>>,
    items': seq<Info>, series': seq<seq<Level<Net>>>, t: real, readings: seq<Reading>, nows: seq<real>)
    requires Orderly(series0) && Orderly(series) && |nows| == LEVELS
    requires |entries0| == LEVELS && Shaped(Blank(entries0))
    requires Underway(entries0, items0, series0, split, t, readings) && Joins(split, items, series)
    requires OnlySamples(items, items') && PassDone(series, 1, series', nows)
    ensures Ticked(entries0, items0, series0, items', series', t, readings, nows)
  {
    var k := |split.added|;
    KnownAreTicked(items0, series0, split, series, series', t, readings, nows);
    AddedAreTicked(entries0, split, series, items', series', t, readings, nows);
    DevicesStay(items0, series0, split, t, readings, items, items');
    assert |items'| - |items0| == k;
  }

  lemma KnownAreTicked(
    items0: seq<Info>, series0: seq<seq<Level<Net>>>, split: Split, series: seq<seq<Level<Net>>>,
    series': seq<seq<Level<Net>>>, t: real, readings: seq<Reading>, nows: seq<real>)
    requires Orderly(series0) && Orderly(series) && |nows| == LEVELS
    requires OldOnes(items0, series0, split.known, split.knownSeries, t, readings)
    requires series == split.addedSeries + split.knownSeries && PassDone(series, 1, series', nows)
    ensures KnownTicked(items0, series0, series'[|split.addedSeries|..], t, readings, nows)
  {
    var tail := series'[|split.addedSeries|..];
    forall i | 0 <= i < |tail| ensures tail[i] == Tick(NET, series0[i], t, ReadingOf(items0[i], readings), nows) {
      OneIsTicked(items0, series0, split, series, series', t, readings, nows, i);
    }
  }

  lemma AddedAreTicked(
    entries0: seq<Entry>, split: Split, series: seq<seq<Level<Net>>>, items': seq<Info>,
    series': seq<seq<Level<Net>>>, t: real, readings: seq<Reading>, nows: seq<real>)
    requires |entries0| == LEVELS && Shaped(Blank(entries0)) && |nows| == LEVELS && Orderly(series)
    requires Found(entries0, split.added, split.addedSeries, t, readings)
    requires series == split.addedSeries + split.knownSeries && PassDone(series, 1, series', nows)
    requires OnlySamples(split.added + split.known, items')
    ensures FirstTicks(entries0, items'[..|split.added|], series'[..|split.added|], t, readings, nows)
  {
    forall j | 0 <= j < |split.added| ensures FirstTick(entries0, items'[j], series'[j], t, readings, nows) {
      assert series[j] == split.addedSeries[j] && AllOrdered(series[j]);
      assert items'[j].(samples := split.added[j].samples) == split.added[j];
      MetIsTicked(entries0, split.added[j], items'[j], series[j], t, readings, nows);
    }
  }

  lemma MetIsTicked(
    entries0: seq<Entry>, item: Info, item': Info, levels: seq<Level<Net>>, t: real, readings: seq<Reading>,
    nows: seq<real>)
    requires |entries0| == LEVELS && Shaped(Blank(entries0)) && |nows| == LEVELS
    requires item'.device == item.device && item'.active == item.active
    requires AllOrdered(levels) && Met(entries0, item, levels, t, readings)
    ensures FirstTick(entries0, item', Pass(NET, levels, 1, nows), t, readings, nows)
  {
    var r :| r in readings && MetIn(entries0, item, levels, t, r);
    var born := Newborn(entries0, r.stored);
    forall x | 1 <= x < LEVELS ensures WellBased(born, x) {
      assert WellBased(Blank(entries0), x);
    }
    assert FirstTickOf(entries0, item', Pass(NET, levels, 1, nows), t, r, nows);
  }

  lemma DevicesStay(
    items0: seq<Info>, series0: seq<seq<Level<Net>>>, split: Split, t: real, readings: seq<Reading>,
    items: seq<Info>, items': seq<Info>)
    requires OldOnes(items0, series0, split.known, split.knownSeries, t, readings)
    requires items == split.added + split.known && OnlySamples(items, items')
    ensures SameDevices(items0, items'[|split.added|..])
    ensures ActiveIfRead(items0, items'[|split.added|..], readings)
  {
    forall i | 0 <= i < |items0|
      ensures items'[|split.added|..][i].device == items0[i].device
      ensures items'[|split.added|..][i].active == ReadingOf(items0[i], readings).Some?
    {
      assert Followed(items0[i], series0[i], split.known[i], split.knownSeries[i], t, readings);
      assert items[|split.added| + i] == split.known[i];
      assert items'[|split.added| + i].(samples := split.known[i].samples) == split.known[i];
    }
  }

  // ------------------------------------------------------------------
  // Every interface stays exact.
  // ------------------------------------------------------------------

  ghost predicate GridStands(entries: seq<Entry>, anchor: real, seen: real) {
    && |entries| == LEVELS && Shaped(Blank(entries)) && Integral(seen)
    && forall x | 1 <= x < LEVELS :: Standing(entries[x], anchor, seen)
  }

  /** A new interface, with whatever was stored of it, is a place to start. */
  lemma NewbornIsPoised(entries: seq<Entry>, stored: seq<seq<Sample<Net>>>, anchor: real, seen: real)
    requires GridStands(entries, anchor, seen) && Storable(entries, stored)
    ensures Poised(NET, Newborn(entries, stored), anchor, seen)
  {
    var born := Newborn(entries, stored);
    forall x | 1 <= x < LEVELS ensures WellBased(born, x) && Ordered(born[x]) {
      assert WellBased(Blank(entries), x) && StorableAt(entries[x], stored[x]);
    }
    forall x | 1 <= x < LEVELS ensures ExactAt(NET, born, x, seen) {
      assert born[x].made == 0;
    }
  }

  /**
   * Per interface, too: after every punctual tick each rollup is the mean over all that the interface ever
   * recorded, whether it was read in every tick or not, and also for interfaces that came up in this tick.
   */
  lemma InterfacesStayExact(
    entries0: seq<Entry>, items0: seq<Info>, series0: seq<seq<Level<Net>>>, items: seq<Info>,
    series: seq<seq<Level<Net>>>, t: real, readings: seq<Reading>, nows: seq<real>, anchor: real, seen: real,
    cell: real)
    requires Orderly(series0) && Prompt(anchor, t, cell) && OnTime(entries0, nows, t, cell) && t >= seen
    requires GridStands(entries0, anchor, seen) && t >= entries0[0].time + 1.0 && Readable(entries0, readings)
    requires Ticked(entries0, items0, series0, items, series, t, readings, nows)
    requires forall i | 0 <= i < |series0| ::
      Poised(NET, series0[i], anchor, seen) && Entries(series0[i]) == entries0
    ensures forall i | 0 <= i < |series| :: Poised(NET, series[i], t, cell)
  {
    var k := |items| - |items0|;
    forall i | 0 <= i < |series| ensures Poised(NET, series[i], t, cell) {
      if i < k {
        assert FirstTick(entries0, items[..k][i], series[..k][i], t, readings, nows);
        var r :| r in readings && FirstTickOf(entries0, items[i], series[i], t, r, nows);
        NewbornIsPoised(entries0, r.stored, anchor, seen);
        assert Entries(Newborn(entries0, r.stored)) == entries0;
        TickStaysExact(NET, Newborn(entries0, r.stored), t, Some(Net(0.0, 0.0)), nows, anchor, seen, cell);
      } else {
        assert series[i] == series[k..][i - k];
        TickStaysExact(NET, series0[i - k], t, ReadingOf(items0[i - k], readings), nows, anchor, seen, cell);
      }
    }
  }

  /** A list that is extended at the front unless the entry is already known. */
  function WithNew<T>(known: bool, a: T, s: seq<T>): seq<T> {
    if known then s else [a] + s
  }

  function Prepared(e: Entry): Entry {
    e.(time := e.nextTime, sampleID := e.sampleID + 1)
  }

  /** All are inactive now, and otherwise as before. */
  ghost predicate Idled(before: seq<Info>, after: seq<Info>) {
    |before| == |after| && forall i | 0 <= i < |after| :: after[i] == before[i].(active := false)
  }

  /** Only their samples have changed. */
  ghost predicate OnlySamples(before: seq<Info>, after: seq<Info>) {
    |before| == |after| && forall i | 0 <= i < |after| :: after[i].(samples := before[i].samples) == before[i]
  }

  lemma OnlySamplesTransitive(a: seq<Info>, b: seq<Info>, c: seq<Info>)
    requires OnlySamples(a, b) && OnlySamples(b, c)
    ensures OnlySamples(a, c)
  {
    forall i | 0 <= i < |c| ensures c[i].(samples := a[i].samples) == a[i] {
      assert b[i].(samples := a[i].samples) == a[i] && c[i].(samples := b[i].samples) == b[i];
    }
  }

  // ------------------------------------------------------------------
  // The shared grid by itself.
  // ------------------------------------------------------------------

  ghost function GridAdvanced(entries: seq<Entry>, x: nat, now: real): (after: seq<Entry>)
    requires x < |entries|
    ensures |after| == |entries|
  {
    if entries[x].interval >= 1.0 then entries[x := Advanced(entries[x], now)] else entries
  }

  /** Level x of the grid: it moves when it is due. */
  ghost function PassGrid(entries: seq<Entry>, x: nat, now: real): (after: seq<Entry>)
    requires x < |entries|
    ensures |after| == |entries|
  {
    if entries[0].time < entries[x].nextTime then entries else GridAdvanced(entries, x, now)
  }

  /** The grid after a whole tick. */
  ghost function TickGrid(entries: seq<Entry>, t: real, nows: seq<real>): seq<Entry>
    requires |entries| == |nows| == LEVELS
  {
    GridPass(entries[0 := entries[0].(time := t, nextTime := t, sampleID := entries[0].sampleID + 1)], 1, nows)
  }

  ghost function GridPass(entries: seq<Entry>, x: nat, nows: seq<real>): seq<Entry>
    requires |entries| == |nows| == LEVELS
    decreases LEVELS - x, |entries|
  {
    if x >= LEVELS then entries else GridPass(PassGrid(entries, x, nows[x]), x + 1, nows)
  }

  /** The rest of the pass leads where the whole pass would have led. */
  ghost predicate SameGrid(grid: seq<Entry>, first: nat, entries: seq<Entry>, x: nat, nows: seq<real>) {
    |grid| == |entries| == |nows| == LEVELS && GridPass(entries, x, nows) == GridPass(grid, first, nows)
  }

  lemma GridEnds(grid: seq<Entry>, first: nat, entries: seq<Entry>, x: nat, nows: seq<real>)
    requires SameGrid(grid, first, entries, x, nows) && x == LEVELS
    ensures entries == GridPass(grid, first, nows)
  {
  }

  /** The loop at level x has touched nothing else, and is on its way to where it has to go. */
  ghost predicate OnTheWay(grid: seq<Entry>, entries: seq<Entry>, x: nat, now: real) {
    && |entries| == |grid| == LEVELS && x < LEVELS && entries == grid[x := entries[x]]
    && grid[x].interval >= 1.0 && entries[x].interval >= 1.0 && Advanced(entries[x], now) == Advanced(grid[x], now)
  }

  /** What a reading of interface p does: it becomes active and, if the collector is ready, gets a sample. */
  ghost predicate Seen(
    items: seq<Info>, series: seq<seq<Level<Net>>>, traces: seq<Trace>,
    items': seq<Info>, series': seq<seq<Level<Net>>>, traces': seq<Trace>,
    p: nat, e: Entry, ready: bool, upload: nat, download: nat)
  {
    && p < |items| == |series| == |traces| && |series[p]| == LEVELS && |items[p].samples| == LEVELS
    && var item := items[p].(active := true);
       var s := Sample(Measured(item, upload, download), e.sampleID, e.time, false);
       if ready
       then items' == items[p := Updated(item, upload, download, s)]
            && series' == series[p := series[p][0 := Receive(series[p][0], s)]]
            && traces' == traces[p := Extended(traces[p], upload, download)]
       else items' == items[p := item] && series' == series && traces' == traces
  }

  /** The same interfaces, in the same places. */
  ghost predicate SameDevices(before: seq<Info>, after: seq<Info>) {
    |before| == |after| && forall i | 0 <= i < |after| :: after[i].device == before[i].device
  }
}
