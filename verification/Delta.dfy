/** Incremental reading: clients echo the id they were given and are sent what is newer. */
module Delta {
  import opened Levels
  import opened Options
  import opened Pyramid
  import Decimal

  /** The samples with a larger id, newest first. */
  function Newer<V>(log: seq<Sample<V>>, id: int): seq<Sample<V>> {
    if log == [] then []
    else (if log[0].sampleID > id then [log[0]] else []) + Newer(log[1..], id)
  }

  lemma {:induction false} NoneNewer<V>(log: seq<Sample<V>>, id: int)
    requires forall i | 0 <= i < |log| :: log[i].sampleID <= id
    ensures Newer(log, id) == []
  {
    if log != [] {
      NoneNewer(log[1..], id);
    }
  }

  lemma {:induction false} AllNewer<V>(newer: seq<Sample<V>>, log: seq<Sample<V>>, id: int)
    requires forall i | 0 <= i < |newer| :: newer[i].sampleID > id
    ensures Newer(newer + log, id) == newer + Newer(log, id)
    decreases |newer|
  {
    if newer == [] {
      assert newer + log == log;
      assert newer + Newer(log, id) == Newer(log, id);
    } else {
      assert (newer + log)[1..] == newer[1..] + log;
      AllNewer(newer[1..], log, id);
      assert newer == [newer[0]] + newer[1..];
    }
  }

  lemma PrefixIds<V>(log: seq<Sample<V>>, gap: real, id: int, n: nat, i: nat)
    requires Spaced(log, gap) && gap >= 0.0 && n <= |log| && i < |log|
    requires (n > 0 ==> log[n - 1].sampleID > id) && (n < |log| ==> log[n].sampleID <= id)
    ensures i < n <==> log[i].sampleID > id
  {
    if i < n {
      SpacedFar(log, gap, i, n - 1);
    } else {
      SpacedFar(log, gap, n, i);
    }
  }

  /** In a descending log, the newer samples are exactly those of a prefix. */
  lemma NewerIsPrefix<V>(log: seq<Sample<V>>, gap: real, id: int, n: nat)
    requires Spaced(log, gap) && gap >= 0.0 && n <= |log|
    requires (n > 0 ==> log[n - 1].sampleID > id) && (n < |log| ==> log[n].sampleID <= id)
    ensures Newer(log, id) == log[..n]
  {
    assert log[..n] + log[n..] == log;
    SplitIsNewer(log[..n], log[n..], gap, id);
  }

  lemma SplitIsNewer<V>(front: seq<Sample<V>>, rest: seq<Sample<V>>, gap: real, id: int)
    requires Spaced(front + rest, gap) && gap >= 0.0
    requires (front != [] ==> front[|front| - 1].sampleID > id) && (rest != [] ==> rest[0].sampleID <= id)
    ensures Newer(front + rest, id) == front
  {
    var log, n := front + rest, |front|;
    assert n > 0 ==> log[n - 1] == front[n - 1];
    assert rest != [] ==> log[n] == rest[0];
    forall i | 0 <= i < |front| ensures front[i].sampleID > id {
      PrefixIds(log, gap, id, n, i);
    }
    forall i | 0 <= i < |rest| ensures rest[i].sampleID <= id {
      PrefixIds(log, gap, id, n, n + i);
    }
    PrefixIsNewer(front, rest, id);
  }

  lemma PrefixIsNewer<V>(front: seq<Sample<V>>, rest: seq<Sample<V>>, id: int)
    requires forall i | 0 <= i < |front| :: front[i].sampleID > id
    requires forall i | 0 <= i < |rest| :: rest[i].sampleID <= id
    ensures Newer(front + rest, id) == front
  {
    NoneNewer(rest, id);
    AllNewer(front, rest, id);
    assert front + [] == front;
  }

  /** The number of newer samples, which stand at the front. */
  lemma {:induction false} NewerCount<V>(log: seq<Sample<V>>, gap: real, id: int) returns (n: nat)
    requires Spaced(log, gap) && gap >= 0.0
    ensures n <= |log| && Newer(log, id) == log[..n]
    ensures (n > 0 ==> log[n - 1].sampleID > id) && (n < |log| ==> log[n].sampleID <= id)
  {
    n := 0;
    while n < |log| && log[n].sampleID > id
      invariant n <= |log| && (n > 0 ==> log[n - 1].sampleID > id)
    {
      n := n + 1;
    }
    NewerIsPrefix(log, gap, id, n);
  }

  lemma ReversedJoin<T>(a: seq<T>, b: seq<T>)
    ensures Reversed(a + b) == Reversed(b) + Reversed(a)
  {
    ReversedSize(a);
    ReversedSize(b);
    ReversedSize(a + b);
  }

  /** The scan of the response builders: newest first, stopping at the first sample the client has. */
  method Scan<V>(deque: seq<Sample<V>>, sampleID: int, ghost gap: real) returns (samples: seq<Sample<V>>)
    requires Spaced(deque, gap) && gap >= 0.0
    ensures samples == Reversed(Newer(deque, sampleID))
  {
    samples := [];
    var i := 0;
    while i < |deque|
      invariant 0 <= i <= |deque| && samples == Reversed(deque[..i])
      invariant i > 0 ==> deque[i - 1].sampleID > sampleID
    {
      var sample := deque[i];
      if sample.sampleID > sampleID {
        ReversedJoin(deque[..i], [sample]);
        assert deque[..i + 1] == deque[..i] + [sample];
        samples := [sample] + samples;
      } else {
        break;
      }
      i := i + 1;
    }
    NewerIsPrefix(deque, gap, sampleID, i);
  }

  // ------------------------------------------------------------------
  // One poll.
  // ------------------------------------------------------------------

  datatype Client<V> = Client(known: int, received: seq<Sample<V>>)

  /** What a poll returns. Items that are inactive at that moment are left out of the reply. */
  function Reply<V>(level: Level<V>, known: int, active: bool): seq<Sample<V>> {
    if active then Reversed(Newer(level.deque, known)) else []
  }

  /** The client appends the reply and will echo the id that came with it. */
  function Poll<V>(level: Level<V>, client: Client<V>, active: bool): Client<V> {
    Client(level.entry.sampleID, client.received + Reply(level, client.known, active))
  }

  /** Nothing new, or nothing new has been evicted or held back. */
  ghost predicate Complete<V>(level: Level<V>, known: int, active: bool) {
    Newer(level.log, known) == [] || (active && |Newer(level.log, known)| <= |level.deque|)
  }

  /** What both kinds of level guarantee: see `Ordered` and `OrderedLive`. */
  ghost predicate Descending<V>(level: Level<V>) {
    && Keeps(level.deque, level.log) && Spaced(level.log, level.entry.interval) && level.entry.interval >= 0.0
    && (level.log != [] ==> level.log[0].sampleID <= level.entry.sampleID)
  }

  lemma DequeNewer<V>(level: Level<V>, known: int)
    requires Descending(level)
    ensures var newer := Newer(level.log, known);
            Newer(level.deque, known) == if |newer| <= |level.deque| then newer else level.deque
  {
    assert level.log == level.deque + level.log[|level.deque|..];
    FrontNewer(level.deque, level.log[|level.deque|..], level.entry.interval, known);
  }

  lemma FrontNewer<V>(front: seq<Sample<V>>, rest: seq<Sample<V>>, gap: real, known: int)
    requires Spaced(front + rest, gap) && gap >= 0.0
    ensures var newer := Newer(front + rest, known);
            Newer(front, known) == if |newer| <= |front| then newer else front
  {
    var log := front + rest;
    var n := NewerCount(log, gap, known);
    if n <= |front| {
      assert log[..n] == front[..n];
      PrefixSpaced(front, log, gap);
      NewerIsPrefix(front, gap, known, n);
    } else {
      forall i | 0 <= i < |front| ensures front[i].sampleID > known {
        PrefixIds(log, gap, known, n, i);
      }
      PrefixIsNewer(front, [], known);
      assert front + [] == front;
    }
  }

  /**
   * A reply is everything pushed with an id above the client's, in ascending order, exactly if nothing of it
   * was evicted and the item was active; otherwise it is too short.
   */
  lemma ReplyIsExact<V>(level: Level<V>, known: int, active: bool)
    requires Descending(level)
    ensures Reply(level, known, active) == Reversed(Newer(level.log, known)) <==> Complete(level, known, active)
    ensures !Complete(level, known, active) ==> |Reply(level, known, active)| < |Newer(level.log, known)|
  {
    DequeNewer(level, known);
    ReversedSize(Newer(level.log, known));
    ReversedSize(Newer(level.deque, known));
  }

  /** Everything with an id above `start` and up to `known`, oldest first. */
  ghost function Between<V>(log: seq<Sample<V>>, start: int, known: int): seq<Sample<V>> {
    var from, left := Newer(log, start), |Newer(log, known)|;
    if left <= |from| then Reversed(from[left..]) else []
  }

  lemma NewerShrinks<V>(log: seq<Sample<V>>, gap: real, start: int, known: int)
    requires Spaced(log, gap) && gap >= 0.0 && start <= known
    ensures |Newer(log, known)| <= |Newer(log, start)| && Newer(log, known) <= Newer(log, start)
  {
    var m := NewerCount(log, gap, start);
    var n := NewerCount(log, gap, known);
    if m < |log| {
      PrefixIds(log, gap, known, n, m);
    }
    assert log[..m][..n] == log[..n];
  }

  /** The client has what it should have, or has missed something. */
  ghost predicate Synced<V>(level: Level<V>, start: int, client: Client<V>) {
    && Descending(level) && start <= client.known <= level.entry.sampleID
    && |client.received| <= |Between(level.log, start, client.known)|
  }

  ghost predicate InStep<V>(level: Level<V>, start: int, client: Client<V>) {
    client.received == Between(level.log, start, client.known)
  }

  ghost predicate Behind<V>(level: Level<V>, start: int, client: Client<V>) {
    |client.received| < |Between(level.log, start, client.known)|
  }

  lemma PollKeepsUp<V>(level: Level<V>, start: int, client: Client<V>, active: bool)
    requires Synced(level, start, client)
    ensures var after := Poll(level, client, active);
            && Synced(level, start, after) && Newer(level.log, after.known) == []
            && (InStep(level, start, client) && Complete(level, client.known, active) ==> InStep(level, start, after))
            && (Behind(level, start, client) || !Complete(level, client.known, active) ==> Behind(level, start, after))
  {
    AllKnown(level);
    ReplyIsExact(level, client.known, active);
    ReplyIsShort(level, client.known, active);
    BetweenGrows(level.log, level.entry.interval, start, client.known, level.entry.sampleID);
    ReversedSize(Newer(level.log, client.known));
  }

  /** What lies between is extended at the end by what is newer. */
  lemma BetweenGrows<V>(log: seq<Sample<V>>, gap: real, start: int, known: int, latest: int)
    requires Spaced(log, gap) && gap >= 0.0 && start <= known && Newer(log, latest) == []
    ensures Between(log, start, latest) == Between(log, start, known) + Reversed(Newer(log, known))
  {
    var all, newer := Newer(log, start), Newer(log, known);
    NewerShrinks(log, gap, start, known);
    var missing := all[|newer|..];
    assert all == newer + missing && all[0..] == all;
    ReversedJoin(newer, missing);
  }

  lemma AllKnown<V>(level: Level<V>)
    requires Descending(level)
    ensures Newer(level.log, level.entry.sampleID) == []
  {
    NewerIsPrefix(level.log, level.entry.interval, level.entry.sampleID, 0);
  }

  lemma ReplyIsShort<V>(level: Level<V>, known: int, active: bool)
    requires Descending(level)
    ensures |Reply(level, known, active)| <= |Newer(level.log, known)|
  {
    DequeNewer(level, known);
    ReversedSize(Newer(level.deque, known));
  }

  // ------------------------------------------------------------------
  // What a tick adds.
  // ------------------------------------------------------------------

  /** A level only gains samples, with ids above everything it has announced. */
  ghost predicate Grew<V>(before: Level<V>, after: Level<V>, gained: seq<Sample<V>>) {
    && after.log == gained + before.log && before.entry.sampleID <= after.entry.sampleID
    && forall i | 0 <= i < |gained| :: gained[i].sampleID > before.entry.sampleID
  }

  lemma PassedGrows<V>(arithmetic: Arithmetic<V>, level: Level<V>, source: seq<Sample<V>>, live: real, now: real)
    requires level.entry.interval >= 1.0 && Ordered(level)
    ensures Grew(level, Passed(arithmetic, level, source, live, now), GainedBy(arithmetic, level, source, live, now))
  {
    var gained := GainedBy(arithmetic, level, source, live, now);
    PassedGains(arithmetic, level, source, live, now);
    PassedEntry(arithmetic, level, source, live, now);
    AdvancedFacts(level.entry, now);
    forall i | 0 <= i < |gained| ensures gained[i].sampleID > level.entry.sampleID {
      assert gained[i] in gained;
      PassedMade(arithmetic, level, source, live, now, gained[i]);
    }
  }

  lemma LiveGrows<V>(levels: seq<Level<V>>, t: real, reading: Option<V>)
    requires |levels| == LEVELS
    ensures Grew(levels[0], LiveSample(levels, t, reading)[0], LiveGain(levels, t, reading))
  {
  }

  lemma TickGrows<V>(
    arithmetic: Arithmetic<V>, levels: seq<Level<V>>, t: real, reading: Option<V>, nows: seq<real>, y: nat)
    returns (gained: seq<Sample<V>>)
    requires AllOrdered(levels) && t >= levels[0].entry.time + 1.0 && |nows| == LEVELS && y < LEVELS
    ensures Grew(levels[y], Tick(arithmetic, levels, t, reading, nows)[y], gained)
  {
    if y == 0 {
      LiveSampleOrdered(levels, t, reading);
      gained := LiveGain(levels, t, reading);
      PassKeeps(arithmetic, LiveSample(levels, t, reading), 1, nows, 0);
      LiveGrows(levels, t, reading);
    } else {
      TickEach(arithmetic, levels, t, reading, nows, y);
      var source := Tick(arithmetic, levels, t, reading, nows)[levels[y].entry.historyIndex].deque;
      gained := GainedBy(arithmetic, levels[y], source, t, nows[y]);
      assert Ordered(levels[y]);
      PassedGrows(arithmetic, levels[y], source, t, nows[y]);
    }
  }

  lemma LevelIsDescending<V>(levels: seq<Level<V>>, x: nat)
    requires AllOrdered(levels) && x < LEVELS
    ensures Descending(levels[x])
  {
    if x > 0 {
      assert WellBased(levels, x) && Ordered(levels[x]);
    }
  }

  /** New samples wait for the next poll. */
  lemma GrowthWaits<V>(before: Level<V>, after: Level<V>, gained: seq<Sample<V>>, start: int, client: Client<V>)
    requires Grew(before, after, gained) && Synced(before, start, client) && Descending(after)
    ensures Between(after.log, start, client.known) == Between(before.log, start, client.known)
    ensures Synced(after, start, client)
    ensures Newer(after.log, client.known) == gained + Newer(before.log, client.known)
  {
    NewerShrinks(before.log, before.entry.interval, start, client.known);
    AllNewer(gained, before.log, start);
    AllNewer(gained, before.log, client.known);
    var all, left := Newer(before.log, start), |Newer(before.log, client.known)|;
    assert (gained + all)[|gained| + left..] == all[left..];
  }

  // ------------------------------------------------------------------
  // Whole runs. Ticks and polls hold the same lock, so they interleave as wholes.
  // ------------------------------------------------------------------

  datatype Action<V> = Ticked(tick: TickInput<V>) | Polled(active: bool)

  datatype State<V> = State(levels: seq<Level<V>>, client: Client<V>)

  ghost predicate Sane<V>(state: State<V>, x: nat, start: int) {
    x < LEVELS && AllOrdered(state.levels) && Synced(state.levels[x], start, state.client)
  }

  ghost predicate Advances<V>(state: State<V>, action: Action<V>)
    requires |state.levels| == LEVELS
  {
    action.Ticked? ==> |action.tick.nows| == LEVELS && action.tick.t >= state.levels[0].entry.time + 1.0
  }

  ghost function Act<V>(arithmetic: Arithmetic<V>, state: State<V>, x: nat, action: Action<V>): State<V>
    requires AllOrdered(state.levels) && x < LEVELS && Advances(state, action)
  {
    match action
    case Ticked(tick) => state.(levels := Tick(arithmetic, state.levels, tick.t, tick.reading, tick.nows))
    case Polled(active) => state.(client := Poll(state.levels[x], state.client, active))
  }

  lemma ActKeepsUp<V>(arithmetic: Arithmetic<V>, state: State<V>, x: nat, start: int, action: Action<V>)
    requires Sane(state, x, start) && Advances(state, action)
    ensures var after := Act(arithmetic, state, x, action);
            var missed := action.Polled? && !Complete(state.levels[x], state.client.known, action.active);
            && Sane(after, x, start)
            && (InStep(state.levels[x], start, state.client) && !missed
              ==> InStep(after.levels[x], start, after.client))
            && (Behind(state.levels[x], start, state.client) || missed ==> Behind(after.levels[x], start, after.client))
  {
    match action
    case Ticked(tick) =>
      var gained := TickGrows(arithmetic, state.levels, tick.t, tick.reading, tick.nows, x);
      TickStaysOrdered(arithmetic, state.levels, tick.t, tick.reading, tick.nows);
      var after := Tick(arithmetic, state.levels, tick.t, tick.reading, tick.nows);
      LevelIsDescending(after, x);
      GrowthWaits(state.levels[x], after[x], gained, start, state.client);
    case Polled(active) =>
      PollKeepsUp(state.levels[x], start, state.client, active);
  }

  /** Tick times advance throughout. */
  ghost predicate AllAdvance<V>(arithmetic: Arithmetic<V>, state: State<V>, x: nat, start: int, actions: seq<Action<V>>)
    requires Sane(state, x, start)
    decreases |actions|
  {
    if actions == [] then true
    else
      && Advances(state, actions[0])
      && (ActKeepsUp(arithmetic, state, x, start, actions[0]);
          AllAdvance(arithmetic, Act(arithmetic, state, x, actions[0]), x, start, actions[1..]))
  }

  ghost function Run<V>(
    arithmetic: Arithmetic<V>, state: State<V>, x: nat, start: int, actions: seq<Action<V>>): (after: State<V>)
    requires Sane(state, x, start) && AllAdvance(arithmetic, state, x, start, actions)
    ensures Sane(after, x, start)
    decreases |actions|
  {
    if actions == [] then state
    else
      ActKeepsUp(arithmetic, state, x, start, actions[0]);
      Run(arithmetic, Act(arithmetic, state, x, actions[0]), x, start, actions[1..])
  }

  /** Every poll of the run is complete when it happens. */
  ghost predicate AllComplete<V>(
    arithmetic: Arithmetic<V>, state: State<V>, x: nat, start: int, actions: seq<Action<V>>)
    requires Sane(state, x, start) && AllAdvance(arithmetic, state, x, start, actions)
    decreases |actions|
  {
    if actions == [] then true
    else
      && (actions[0].Polled? ==> Complete(state.levels[x], state.client.known, actions[0].active))
      && (ActKeepsUp(arithmetic, state, x, start, actions[0]);
          AllComplete(arithmetic, Act(arithmetic, state, x, actions[0]), x, start, actions[1..]))
  }

  lemma {:induction false} RunKeepsUp<V>(
    arithmetic: Arithmetic<V>, state: State<V>, x: nat, start: int, actions: seq<Action<V>>)
    requires Sane(state, x, start) && AllAdvance(arithmetic, state, x, start, actions)
    requires InStep(state.levels[x], start, state.client) || Behind(state.levels[x], start, state.client)
    ensures var after := Run(arithmetic, state, x, start, actions);
            if InStep(state.levels[x], start, state.client) && AllComplete(arithmetic, state, x, start, actions)
            then InStep(after.levels[x], start, after.client)
            else Behind(after.levels[x], start, after.client)
    decreases |actions|
  {
    if actions != [] {
      ActKeepsUp(arithmetic, state, x, start, actions[0]);
      RunKeepsUp(arithmetic, Act(arithmetic, state, x, actions[0]), x, start, actions[1..]);
    }
  }

  /** A new client may start from any id up to the level's own. */
  ghost function NewClient<V>(levels: seq<Level<V>>, x: nat, start: int): (state: State<V>)
    requires AllOrdered(levels) && x < LEVELS && start <= levels[x].entry.sampleID
    ensures Sane(state, x, start)
  {
    LevelIsDescending(levels, x);
    State(levels, Client(start, []))
  }

  /**
   * The main result for clients. Through any interleaving of ticks and polls, the concatenated replies are
   * exactly the samples pushed above the id the client started from, up to the id it now echoes, in ascending
   * order, each once -- if and only if every poll was complete.
   */
  lemma DeltasArriveExactlyOnce<V>(
    arithmetic: Arithmetic<V>, levels: seq<Level<V>>, x: nat, start: int, actions: seq<Action<V>>)
    requires AllOrdered(levels) && x < LEVELS && start <= levels[x].entry.sampleID
    requires AllAdvance(arithmetic, NewClient(levels, x, start), x, start, actions)
    ensures var begin := NewClient(levels, x, start);
            var after := Run(arithmetic, begin, x, start, actions);
            after.client.received == Between(after.levels[x].log, start, after.client.known)
            <==> AllComplete(arithmetic, begin, x, start, actions)
  {
    var newer := Newer(levels[x].log, start);
    assert newer[|newer|..] == [];
    RunKeepsUp(arithmetic, NewClient(levels, x, start), x, start, actions);
  }

  /** An item that is inactive when it is polled has lost what was pushed: it is never sent again. */
  lemma InactivePollLoses<V>(
    arithmetic: Arithmetic<V>, levels: seq<Level<V>>, x: nat, start: int, actions: seq<Action<V>>)
    requires AllOrdered(levels) && x < LEVELS && start <= levels[x].entry.sampleID
    requires Newer(levels[x].log, start) != [] && actions != [] && actions[0] == Polled(false)
    requires AllAdvance(arithmetic, NewClient(levels, x, start), x, start, actions)
    ensures var after := Run(arithmetic, NewClient(levels, x, start), x, start, actions);
            |after.client.received| < |Between(after.levels[x].log, start, after.client.known)|
  {
    var newer := Newer(levels[x].log, start);
    assert newer[|newer|..] == [];
    RunKeepsUp(arithmetic, NewClient(levels, x, start), x, start, actions);
  }

  /** Such a poll: one rollup was pushed, the client has none, and the interface happens to be down. */
  lemma InactivePollExample() returns (level: Level<int>)
    ensures Descending(level) && level.log == [Sample(7, 2, 60.0, false)] && level.entry.sampleID == 2
    ensures var client := Poll(level, Client(1, []), false);
            client == Client(2, []) && Between(level.log, 1, 2) == [Sample(7, 2, 60.0, false)]
            && Poll(level, client, true) == client
  {
    var s := Sample(7, 2, 60.0, false);
    level := Level(Entry(2, 60.0, 66.0, 6.0, 0), [s], [s], 1);
    assert Newer([s], 1) == [s] && Newer([s], 2) == [];
    assert Reversed([s]) == [s];
    assert [s][0..] == [s];
  }

  /** The item is active, and at most 600 samples were pushed since the last poll, when the log had `mark` samples. */
  ghost predicate Frequent<V>(
    arithmetic: Arithmetic<V>, state: State<V>, x: nat, start: int, actions: seq<Action<V>>, mark: nat)
    requires Sane(state, x, start) && AllAdvance(arithmetic, state, x, start, actions)
    decreases |actions|
  {
    if actions == [] then true
    else
      var pushed, polled := |state.levels[x].log| - mark, actions[0].Polled?;
      && (polled ==> actions[0].active && pushed <= HISTORY_SIZE)
      && (ActKeepsUp(arithmetic, state, x, start, actions[0]);
          Frequent(arithmetic, Act(arithmetic, state, x, actions[0]), x, start, actions[1..],
                   if polled then |state.levels[x].log| else mark))
  }

  /** Polling an active item at least once in 600 samples is enough. */
  lemma {:induction false} FrequentPollsAreComplete<V>(
    arithmetic: Arithmetic<V>, state: State<V>, x: nat, start: int, actions: seq<Action<V>>, mark: nat)
    requires Sane(state, x, start) && AllAdvance(arithmetic, state, x, start, actions)
    requires Frequent(arithmetic, state, x, start, actions, mark)
    requires mark + |Newer(state.levels[x].log, state.client.known)| <= |state.levels[x].log|
    ensures AllComplete(arithmetic, state, x, start, actions)
    decreases |actions|
  {
    if actions != [] {
      var after := Act(arithmetic, state, x, actions[0]);
      ActKeepsUp(arithmetic, state, x, start, actions[0]);
      match actions[0]
      case Ticked(tick) =>
        var gained := TickGrows(arithmetic, state.levels, tick.t, tick.reading, tick.nows, x);
        LevelIsDescending(after.levels, x);
        GrowthWaits(state.levels[x], after.levels[x], gained, start, state.client);
        FrequentPollsAreComplete(arithmetic, after, x, start, actions[1..], mark);
      case Polled(active) =>
        PollKeepsUp(state.levels[x], start, state.client, active);
        FrequentPollsAreComplete(arithmetic, after, x, start, actions[1..], |state.levels[x].log|);
    }
  }

  // ------------------------------------------------------------------
  // One item is reported at most once for each level, although several elements of a request may ask for it.
  // ------------------------------------------------------------------

  function KeyForIndex(uuid: string, index: nat): string {
    Decimal.Print(index) + [':'] + uuid
  }

  /** The textual key identifies level and item. */
  lemma KeysAreDistinct(uuid: string, index: nat, uuid': string, index': nat)
    ensures KeyForIndex(uuid, index) == KeyForIndex(uuid', index') <==> uuid == uuid' && index == index'
  {
    var a, b := Decimal.Print(index), Decimal.Print(index');
    Decimal.PrintThenValue(index);
    Decimal.PrintThenValue(index');
    if KeyForIndex(uuid, index) == KeyForIndex(uuid', index') {
      DigitsEndAt(a, uuid, b, uuid');
      DigitsEndAt(b, uuid', a, uuid);
    }
  }

  lemma DigitsEndAt(a: string, u: string, b: string, v: string)
    requires Decimal.AllDigits(a) && Decimal.AllDigits(b) && a + [':'] + u == b + [':'] + v
    ensures |a| >= |b| && (|a| == |b| ==> a == b && u == v)
  {
    var s, t := a + [':'] + u, b + [':'] + v;
    assert s[|a|] == ':' && t[|b|] == ':';
    assert forall i | 0 <= i < |b| :: t[i] == b[i] && Decimal.IsDigit(t[i]);
    if |a| == |b| {
      assert s[..|a|] == a && t[..|a|] == b;
      assert s[|a| + 1..] == u && t[|a| + 1..] == v;
    }
  }

  /** The keys reported so far, as pairs. */
  ghost predicate Lists(added: seq<string>, items: set<(nat, string)>) {
    && (forall k | k in added :: exists item :: item in items && k == KeyForIndex(item.1, item.0))
    && (forall item | item in items :: KeyForIndex(item.1, item.0) in added)
  }

  method Contains(keys: seq<string>, key: string) returns (found: bool)
    ensures found <==> key in keys
  {
    for i := 0 to |keys|
      invariant key !in keys[..i]
    {
      if keys[i] == key {
        return true;
      }
    }
    return false;
  }

  method ShouldAddKey(index: nat, key: string, keys: seq<string>, added: seq<string>, ghost items: set<(nat, string)>)
    returns (add: bool, added': seq<string>)
    requires Lists(added, items)
    ensures add <==> (index, key) !in items && (keys == [] || key in keys)
    ensures Lists(added', if add then items + {(index, key)} else items)
    ensures !add ==> added' == added
  {
    var k := KeyForIndex(key, index);
    added' := added;
    var known := Contains(added, k);
    add := !known;
    assert known <==> (index, key) in items by {
      if known {
        var item :| item in items && k == KeyForIndex(item.1, item.0);
        KeysAreDistinct(key, index, item.1, item.0);
      }
    }
    if add && |keys| > 0 {
      add := Contains(keys, key);
    }
    if add {
      added' := added + [k];
    }
  }
}
