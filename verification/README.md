# iStat Server for Linux and macOS, verified

A Dafny model of the parts of iStat Server whose correctness rests on invariants that no single function shows.
`dafny verify dfyconfig.toml` checks everything.

* **History** (`Levels`, `Means`, `Pyramid`, `Straddle`, `CpuHistory`, `Network`, `NetworkRuns`, `Words`). Once a
  second every collector pushes a live sample; seven further levels keep means over longer and longer intervals, each
  built from the bounded deque of a lower one. `Levels` and `Pyramid` describe this on values, for any kind of
  measurement, beside the unbounded log of everything a level ever received. The main result is that rollups computed
  from 600-element deques, with early exits and catch-up loops, are the means over those complete logs, and stay so;
  `Means` says what a mean is, and `Straddle` is about the passes that go wrong: those in which a level overtakes its
  source. `CpuHistory.StatsCPU` is the collector-wide class that updates everything in place; `Network.StatsNetwork`
  has one shared grid and a pyramid for every interface, and conserves its counters; `NetworkRuns` follows it from
  start-up over whole runs in which interfaces come up.
* **Stored history** (`Persistence`, `Reload`). One level and its table: loading, gap filling, queued rows, retention,
  crashes and restarts in any order. All rows stay on one grid and new ids are above all stored ones, although
  the reload can miss the newest row; `Reload` says which rows a restart brings back.
* **Polling** (`Delta`). Clients echo the id they were given. Their replies add up to exactly what was pushed, each
  sample once, if and only if no poll came too late or found the item inactive.
* **The scheduler** (`Scheduler`, `StraddlingRuns`). The arithmetic of the endless loop, and why its ticks are those
  that the history results are about. `Scheduler.ScheduledRollupsAreExact` joins the two, and `StraddlingRuns` gives a
  run that shows where the result ends.
* **Messages** (`MessageStream`, `Framing`). The receive loop that cuts a byte stream into messages, and the framing
  of replies. Plain texts and frames in any mixture come out whole and in order, and how the stream is split into
  reads does not matter, as long as no announced size wraps around; what happens otherwise is stated exactly.
* **Disk health** (`Topology`, `Registry`, `Health`, `Verdicts`). Ancestors in possibly cyclic graphs, the RAID
  completeness check, the disk-sleep policy, aggregation, snapshot, cache and staleness; together they say exactly
  when a client is told `passed`, and `Verdicts` the same of everything else it may be told.
* **Configuration** (`Text`, `Conf`, `Settings`, `Acceptance`, `Utf8`, `Escape`, `Decimal`). Two independently written
  readers of the same file, exactly which files each accepts, a UTF-8 check, and two escapers with the readers that
  undo them.
* **Process records** (`ProcStat`) and **one-shot delivery of a credential** in the macOS control app (`Delivery`; when
  exactly it is held and shown: `Showing`).

Times are real numbers, counters and sizes are 64-bit with their wrap-around written out, and clock readings,
query results and library calls (XML, zlib, `inet_pton`) are parameters.

Where the code differs from what it seems to intend, the model follows the code:

* The RAID check fails for a registry entry called `unknown-raid-member` (`Registry.DiscoveryCounterexample`);
  `Registry.RaidCheckExact` shows that nothing else defeats it.
* A device under a degraded RAID set loses its mark when a registry entry called `unknown-topology` itself hangs
  below a disk (`Registry.UncertaintyCounterexample`, `Health.DegradedVolumeExample`);
  `Registry.UncertainDevicesStayUnknown` gives the exact condition.
* A frame whose header length plus declared length wraps around is cut before its body has come, so that the way the
  stream is split into reads shows (`Framing.WrappingInput`, exactly when: `MessageStream.ChunkingShowsExactly`). If
  the sum is exactly 2^64, the loop repeats for ever (`Framing.RepeatingInput`, exactly when:
  `MessageStream.HangsExactly`).
* When a history pass reads the clock on both sides of its own tick's time and a level and its source are both due
  then (or when a pass runs on for minutes), the level is rolled up without the sample that its source gets later
  (`Straddle.StraddlingTickLosesSample`, exactly when: `Straddle.ClosedUnlessOvertaking` and
  `Straddle.OvertakingIsStraddling`); the scheduler permits such passes (`StraddlingRuns.StraddlingRunIsInexact`).
* The settings reader takes `-1234` for a password, the daemon for a five-character passcode
  (`Settings.PasscodesAgreeExactly`).
* After a late turn the scheduler stores the truth value of `ceil(now) < now` as its sleep, so it does not sleep and
  the next tick runs up to a second ahead of the clock; the branch for being more than two seconds early can only be
  reached when the clock goes back, and its loop over missed seconds never runs (`Scheduler.Stats.Turn`).
* Rollups of an interface that is inactive when a client polls are announced by the id and never sent
  (`Delta.InactivePollLoses`, `Delta.InactivePollExample`; exactly when: `Delta.ReplyIsExact`).
* A setting that is not an array keeps the array items of the setting before it (`Conf.Config.StoreLine`).
* Windows are closed at both ends, so a sample on a boundary counts in two neighbouring rollups.

## Model

| member | source | states |
|---|---|---|
| Levels.WindowStops | src/stats/StatsCPU.cpp:630-644 | Once a deque has fallen below the window nothing further on is in it, so the early `break` loses nothing. |
| Levels.RollupFromDeque | src/stats/StatsCPU.cpp:614-666 | A rollup of the bounded deque equals the rollup of the unbounded log whenever no evicted sample is at or after the start of the window. |
| Levels.RecentWindowsAreCovered | src/stats/StatsCPU.cpp:588-589 | 600 source intervals reach back behind every window that starts within them, so eviction is harmless for those. |
| Levels.AdvancedFacts | src/stats/StatsCPU.cpp:581-585 | However far behind, catching up ends with `now <= nextTime < now + interval`, on the same grid (the origin `nextTime - interval * sampleID` is unchanged). |
| Levels.RollupsFormPass | src/stats/StatsCPU.cpp:577-592 | Every rollup of one pass lies on the grid, is not too old, lies before `now`, carries a new id, and is the mean over its own window; ids and times ascend by at least one interval. |
| Levels.PassIsBounded | src/stats/StatsCPU.cpp:580-592 | One pass builds at most 600 rollups, however long the stall. |
| Levels.RollupsComplete | src/stats/StatsCPU.cpp:581-592 | Every grid point up to `now` that is not too old does get its rollup. |
| Levels.FilledForwardFacts | src/stats/StatBase.cpp:113-120 | Gap filling skips whole intervals only: the origin of the grid is kept and it ends at or after `now`. |
| Means.WindowHoldsInside | src/stats/StatsCPU.cpp:630-644 | Summed up are exactly the samples whose time lies within the bounds, each as often as it occurs. |
| Means.WindowBounds | src/stats/StatsCPU.cpp:616-620 | The bounds reach back one interval, and 0.99 seconds forward for live samples only. |
| Means.WindowsTile | src/stats/StatsCPU.cpp:616-620 | The windows of one rollup and the next together cover exactly their two intervals, and share just the whole second between them. |
| Means.ComponentIsMean | src/stats/StatsCPU.cpp:636-651 | Each component of a rollup, times the number of samples in its window, is the sum of that component over the window. |
| Means.ComponentIsBetween | src/stats/StatsCPU.cpp:636-651 | A rollup that is not empty lies between the smallest and the largest sample of its window. |
| Means.CpuRollupIsMean | src/stats/StatsCPU.cpp:614-666 | The same for the four shares of a CPU rollup, with its id, its time, and empty exactly if the window is. |
| Means.NetRollupIsMean | src/stats/StatsNetwork.cpp:771-815 | The same for upload and download of an interface. |
| Pyramid.ConfiguredIsShaped | src/stats/StatBase.cpp:52-66 | The configured intervals and source levels leave every level at least 594 seconds of slack in its source's 600 samples. |
| Pyramid.ConfiguredSpans | src/stats/StatBase.cpp:52-66 | 600 intervals of the eight levels span ten minutes, an hour, a day, a week, and 30, 90, 180 and 365 days, each level built from a finer one. |
| Pyramid.CaughtUpEntry | src/stats/StatsCPU.cpp:581-585 | The catch-up loop leaves the index where the closed description of catching up says. |
| Pyramid.CaughtUpLog | src/stats/StatsCPU.cpp:577-592 | The samples a level gains are exactly the rollups of the pass, newest first, with nothing lost or reordered. |
| Pyramid.CaughtUpOrdered | src/stats/StatsCPU.cpp:577-592 | Deques stay strictly descending in id and time, keep the newest part of what the level received, and are no longer than 600 or the loaded length. |
| Pyramid.RollupIsExact | src/stats/StatsCPU.cpp:614-666 | A rollup made by a timely pass equals the mean over everything its source level ever received. |
| Pyramid.TickStaysExact | src/stats/StatsCPU.cpp:572-612 | A tick in which no level overtakes its source, and whose pass ends at most 593 seconds after the tick before, keeps every rollup made since start-up equal to the mean over its source's complete log, including what the source received after the rollup was made. |
| Pyramid.CoveredRollupsAreExact | src/stats/StatsCPU.cpp:572-666 | Punctual or not, a new rollup is exact as soon as no evicted sample is at or after the start of its window. |
| Pyramid.TickStaysOrdered | src/stats/StatsCPU.cpp:565-612 | In every run whose ticks advance, however late, ids and times stay strictly descending on all levels; the live level gains exactly the reading of the tick. |
| Pyramid.RunStaysExact | src/stats/StatsCPU.cpp:572-666 | At the end of every run of such ticks, all rollups of all levels are exact. |
| Pyramid.StartIsPoised | src/stats/StatBase.cpp:101-121 | A started collector, with whatever was loaded, is a state from which such runs may begin, provided the loaded levels are in order and their indices stand on whole seconds; that loading from sound tables provides this is `Persistence.RestartedCollectorIsPoised`. |
| Pyramid.TickEach | src/stats/StatsCPU.cpp:572-612 | In a tick every level has its own share of the pass, computed from its source as that stands after the pass. |
| Straddle.DueIsRolledUp | src/stats/StatsCPU.cpp:577-592 | Nothing due is left out: a level whose time has come is rolled up for every point of its grid up to the clock reading that is at most 600 intervals old. |
| Straddle.ClosedUnlessOvertaking | src/stats/StatsCPU.cpp:577-592 | In a pass that ends at most 593 seconds after the tick before, the new rollups of a level lie before everything its source can still receive if and only if the level does not overtake its source, that is, is not rolled up at a time at which the source still has to be. |
| Straddle.OvertakingIsStraddling | src/stats/StatsCPU.cpp:577-592 | In a pass that ends within a second of its tick, or within 143 seconds of the one before, a level overtakes its source if and only if both are rolled up at the tick's own time and the source's clock reading is not past it while the level's is. |
| Straddle.OneSidedIsOnTime | src/stats/StatsCPU.cpp:577-592 | So a pass of that kind whose readings are all past the tick's time, or all not, is in order, whatever is due and whatever whole seconds pass meanwhile. |
| Straddle.StraddlingTickLosesSample | src/stats/StatsCPU.cpp:577-592 | What a straddling pass does: the level is rolled up at t without its source's sample of t, which arrives with the next tick and is all that the window of the finished rollup gains; that rollup is still exact if and only if it is not empty and the new sample leaves the mean alone. |
| CpuHistory.SharesAddUp | src/stats/StatsCPU.cpp:516-547 | For counters that only grow, user, system, nice and idle shares of a reading add up to 100 percent. |
| CpuHistory.ColumnsAreIncreases | src/stats/StatsCPU.cpp:516-547 | Each of the four columns is the increase of its own counter in percent of all ticks between the readings, or of the given total. |
| CpuHistory.FirstReadingIsZero | src/stats/StatsCPU.cpp:521-530 | A first reading, having nothing to be compared with, is zero in all columns. |
| CpuHistory.ScanWindow | src/stats/StatsCPU.cpp:630-653 | The loop with `continue` and `break` computes the sum and the count of exactly the samples inside the window. |
| CpuHistory.StatsCPU.constructor | src/stats/StatsCPU.cpp:446-450 | A new collector has the configured levels, empty, and satisfies the invariant of all levels. |
| CpuHistory.StatsCPU.PrepareUpdate | src/stats/StatBase.cpp:46-50 | Only the live index moves: it takes the scheduler's time and the next id. |
| CpuHistory.StatsCPU.PushSample | src/stats/StatsCPU.cpp:567-568 | A sample goes to the front of one level, which evicts its oldest one beyond 600; the other levels are untouched. |
| CpuHistory.StatsCPU.ProcessSample | src/stats/StatsCPU.cpp:516-569 | The reading becomes the percentages it denotes (64-bit subtraction, first reading compared with itself) at the live index. |
| CpuHistory.StatsCPU.HistoryItemAtIndex | src/stats/StatsCPU.cpp:614-666 | The result is the rollup of the source deque over the window of the level's index, empty if the window is. |
| CpuHistory.StatsCPU.DoRound | src/stats/StatsCPU.cpp:583-608 | One round of the catch-up loop is one abstract round of that level, and queues its row unless it was skipped or empty. |
| CpuHistory.StatsCPU.CatchUp | src/stats/StatsCPU.cpp:577-610 | The in-place loop of one level computes the abstract pass of that level and queues exactly its non-empty rollups, in order. |
| CpuHistory.LevelRowsAreGains | src/stats/StatsCPU.cpp:577-610 | The rows a level queues in a pass are exactly the rollups it gains that are not empty, with their ids, times and values. |
| CpuHistory.StatsCPU.UpdateHistory | src/stats/StatsCPU.cpp:572-612 | The in-place pass over all levels computes the abstract pass, each level reading what lower ones have just written, and appends exactly the rows of the pass to the queue. |
| CpuHistory.PassIsStored | src/stats/StatsCPU.cpp:577-608 | What a pass does to one level and its queue is a pass of the stored-history model, so the results about restarts and keys are about this collector. |
| CpuHistory.StatsCPU.Update | src/Stats.cpp:351-371 | A whole tick of the collector is one tick of the pyramid, so all results about ticks and runs hold for it; the queue grows by exactly the rows of its pass, and the remembered counters become the new ones exactly if the caller gives no total of its own. |
| Persistence.ReloadMissesNewest | src/stats/StatsCPU.cpp:489-494 | The reload finds the newest row, except that it misses exactly that one if and only if the 603 newest ids are all present. |
| Reload.RestartBringsBack | src/stats/StatsCPU.cpp:487-513 | After a restart a level holds exactly the rows of the table within 602 of the newest id, less the newest if all 603 are there; newest first, each with the values and the time of its row. |
| Reload.FlushedRowsComeBack | src/stats/StatsCPU.cpp:487-513 | Flush, crash, restart: the level holds the whole table, with every queued row that the flush has not deleted. |
| Reload.ShutDownRowsComeBack | src/Stats.cpp:302-327 | A shutdown deletes nothing, and after the next start every queued row within reach of the reload is back. |
| Reload.PassQueuesGains | src/stats/StatsCPU.cpp:577-608 | A pass queues a row for exactly the rollups that the level gains in it, less the empty ones where those are not stored. |
| Persistence.RestartIsSound | src/stats/StatBase.cpp:101-121 | A restart on a non-empty table continues its grid, whatever the reload missed; afterwards the index is at or above every stored id and at or after `now`. |
| Persistence.FirstStartIsSound | src/stats/StatBase.cpp:105-111 | An empty table starts a new grid at the next whole second, with one empty row of id 1. |
| Persistence.PassRowsFit | src/stats/StatsCPU.cpp:581-608 | The rows of a pass have new ids, lie on the level's grid and in the past. |
| Persistence.InsertsNeverCollide | src/Stats.cpp:432-440 | Inserting rows with rising ids above the table's meets no primary-key conflict: each row arrives, none is replaced. |
| Persistence.StepIsSound | src/Stats.cpp:302-327 | Passes, flushes, shutdowns and restarts (which lose the queue) each keep: one grid, rows in the past, queued ids rising and above all stored ids; the grid moves only when a restart finds the table empty. |
| Persistence.HistoryKeepsGrid | src/stats/StatsCPU.cpp:476-513 | Over every sequence of such events the invariant holds, and the grid never moves as long as no restart finds the table empty. |
| Persistence.FlushBoundsTable | src/stats/StatBase.cpp:140-158 | After a flush the table holds exactly the rows it had and the queued ones, with their values and times, restricted to the 601 newest ids; the queue is empty. |
| Persistence.RestartedCollectorIsPoised | src/stats/StatBase.cpp:90-121 | A collector restarted on seven sound tables is ready for the runs in which all rollups are exact. |
| Persistence.ExecuteInserts | src/Stats.cpp:432-440 | Running the queued statements in order, inserts and then the deletion, inserts all rows and then retains the newest ids. |
| Persistence.StoredLevel.LoadPreviousSamplesAtIndex | src/stats/StatsCPU.cpp:487-513 | The loop over the query result leaves the reloaded level: newest first, index continuing from the newest loaded row. |
| Persistence.StoredLevel.InsertInitialSample | src/stats/StatBase.cpp:123-138 | The first row is written at once, marked empty. |
| Persistence.StoredLevel.FillGapsAtIndex | src/stats/StatBase.cpp:101-121 | The loop computes the filled index, and writes the first row exactly if nothing was loaded. |
| Persistence.StoredLevel.Start | src/stats/StatsCPU.cpp:469-470 | Loading followed by gap filling is the abstract restart. |
| Persistence.StoredLevel.RemoveOldSamples | src/stats/StatBase.cpp:140-158 | The deletion of rows below `sampleID - 600` is queued behind the pending inserts. |
| Persistence.StoredLevel.InsertDatabaseItems | src/Stats.cpp:432-440 | All queued statements run in order and the queue is empty afterwards. |
| Persistence.StoredLevel.RunQueue | src/Stats.cpp:302-327 | The periodic write inserts the pending rows and then retains the newest ids. |
| Delta.NewerIsPrefix | src/Responses.cpp:258-268 | In a descending deque the samples with a larger id are exactly a prefix, so stopping at the first known id is safe. |
| Delta.Scan | src/Responses.cpp:258-268 | The scan returns all samples with a larger id, oldest first. |
| Delta.ReplyIsExact | src/Responses.cpp:393-412 | A reply is everything pushed with a larger id, in ascending order, if and only if nothing of it was evicted and the item was active; otherwise it is too short. |
| Delta.PollKeepsUp | src/Responses.cpp:270-270 | The id sent with the reply covers everything pushed so far, and a client that was complete stays complete exactly if the poll was. |
| Delta.TickGrows | src/Stats.cpp:263-270 | A tick only adds samples with ids above everything a level has announced. |
| Delta.DeltasArriveExactlyOnce | src/Socket.cpp:579-662 | Through any interleaving of ticks and polls, the concatenated replies are exactly the samples pushed after the client's first id, ascending, each once, if and only if every poll was complete. |
| Delta.InactivePollLoses | src/Responses.cpp:393-412 | A client whose first poll finds the item inactive although something is new stays behind in every continuation: what that poll announced is never sent. |
| Delta.InactivePollExample | src/Responses.cpp:393-412 | A concrete level with one rollup and a client that polls while the interface is down: the id moves on, the rollup is not sent, and an active poll afterwards brings nothing. |
| Delta.FrequentPollsAreComplete | src/Responses.cpp:256-268 | Polling an active item at least once in 600 pushed samples makes every poll complete. |
| Delta.KeysAreDistinct | src/Responses.cpp:380-386 | The textual key identifies level and item: two pairs never share a key. |
| Delta.ShouldAddKey | src/Responses.cpp:441-472 | An item is added if and only if it was not yet added for this level and is asked for (or nothing in particular is). |
| Network.CountersAreConserved | src/stats/StatsNetwork.cpp:600-611 | The recorded increases of a counter add up to its last reading minus its first non-zero one if and only if it never fell (64-bit wrap-around, 0 standing for "not read"). |
| Network.StatsNetwork.TrafficIsConserved | src/stats/StatsNetwork.cpp:583-624 | The same for everything an interface ever recorded, evicted samples included; readings before `ready` are not recorded and leave the account as it is. |
| Network.StatsNetwork.CreateInterface | src/stats/StatsNetwork.cpp:526-581 | A new name is added in front, with what was stored of it; a known name or the loopback changes nothing; names stay distinct. |
| Network.IgnoredExactly | src/stats/StatsNetwork.cpp:585-586 | Passed over are exactly `lo`, `lo0`, `nic` and the names that begin with `virbr` or `ath0`. |
| Network.StatsNetwork.Record | src/stats/StatsNetwork.cpp:600-619 | The interface gets one sample with the increases since its last reading, at the live index; last readings and accounts are updated. |
| Network.StatsNetwork.ProcessInterface | src/stats/StatsNetwork.cpp:583-624 | Ignored names change nothing; otherwise the interface exists, is active and, only once the collector is ready, has recorded the reading. |
| Network.StatsNetwork.PrepareUpdate | src/stats/StatsNetwork.cpp:626-640 | When ready, the live index moves and all interfaces become inactive, in the same places and otherwise as they were; when not, nothing changes. |
| Network.ScanWindow | src/stats/StatsNetwork.cpp:786-804 | The loop computes the sums and the count of exactly the samples inside the window. |
| Network.StatsNetwork.HistoryItemAtIndex | src/stats/StatsNetwork.cpp:771-815 | The result is the rollup of the interface's own source deque over the window of the shared index. |
| Network.StatsNetwork.RollUpAll | src/stats/StatsNetwork.cpp:731-756 | One round pushes, for every interface, the rollup of that interface at the level of the round; of the interfaces only their samples change. |
| Network.StatsNetwork.CatchUp | src/stats/StatsNetwork.cpp:720-767 | The nested loops give every interface its own abstract pass of the level, on one shared grid. |
| Network.StatsNetwork.PassLevels | src/stats/StatsNetwork.cpp:715-769 | The pass over all levels gives every interface its own abstract pass. |
| Network.StatsNetwork.Update | src/stats/StatsNetwork.cpp:583-769 | A whole tick: each interface known before goes through exactly one tick of the pyramid with its own reading or none, each new one through its first; an interface is active afterwards if and only if it was read; the shared grid moves as its own pass says; names stay distinct and accounts true. |
| Network.InterfacesStayExact | src/stats/StatsNetwork.cpp:715-815 | After every such tick all rollups of all interfaces are exact, those of interfaces that came up in the tick, with whatever was stored of them, included. |
| Network.NewbornIsPoised | src/stats/StatsNetwork.cpp:526-581 | A new interface on the shared grid, with any rows that lie in order before the present, is a state from which exact runs begin. |
| NetworkRuns.GridKeepsStanding | src/stats/StatsNetwork.cpp:715-769 | A tick whose pass ends at most 593 seconds after the one before leaves the shared grid where the next tick needs it, whatever interfaces exist. |
| NetworkRuns.LoadedGridStands | src/stats/StatBase.cpp:90-121 | The index that loading and gap filling of seven sound `_id` tables leaves is one from which such runs begin. |
| NetworkRuns.Launch | src/stats/StatsNetwork.cpp:642-688 | A collector with a loaded index, whose first readings list their interfaces before it is ready, starts such a run once it is. |
| NetworkRuns.RunTicks | src/stats/StatsNetwork.cpp:583-815 | At the end of every run in which no level overtakes its source and every pass ends at most 593 seconds after the tick before, all rollups of all interfaces are exact, including interfaces that came up on the way. |
| Scheduler.Stats.constructor | src/Stats.cpp:253-259 | The first tick is due at the next whole second, the first write 60 seconds later. |
| Scheduler.Stats.TickSamples | src/Stats.cpp:283-294 | One extra id for every missed second. |
| Scheduler.Stats.Turn | src/Stats.cpp:276-332 | The next tick time, the sleep and the write decision of one turn, in all three branches; the extra ids are never handed out. |
| Scheduler.NextTickExactly | src/Stats.cpp:276-300 | On time, the next tick is one second on and the loop sleeps exactly until then; else it is the first whole second that is not past, and the loop does not sleep. |
| Scheduler.MissedExactly | src/Stats.cpp:283-294 | The number of missed seconds is the least that leads from the next time to the clock. |
| Scheduler.AdvancesUnlessClockGoesBack | src/Stats.cpp:276-300 | Tick times stay whole seconds; they increase, then by at least one second, if and only if the clock has not fallen below the second before; the `interval > 2` branch is taken if and only if it has. |
| Scheduler.TurnKeepsHead | src/Stats.cpp:262-332 | With a clock that does not go back, each turn starts less than a second before its tick time and never takes the `interval > 2` branch. |
| Scheduler.TimesIncrease | src/Stats.cpp:262-332 | Over every run the tick times are whole seconds, each at least one after the one before. |
| Scheduler.ScheduledRunIsPunctual | src/Stats.cpp:262-332 | Every run that the scheduler allows, in which no level overtakes its source and every pass ends at most 593 seconds after the tick before, consists of ticks as the history results ask for; turns may end late, ticks may begin early, and passes may run into later seconds. |
| Scheduler.ScheduledRollupsAreExact | src/Stats.cpp:253-332 | From start-up on, over every such run, every rollup of every level is the mean over everything its source level ever received. |
| StraddlingRuns.LateTurnIsFollowedEarly | src/Stats.cpp:279-300 | After a turn that ends more than a second late, and not on a whole second, the loop does not sleep and the next tick begins before its time, by less than a second. |
| StraddlingRuns.StraddlingRunIsInexact | src/Stats.cpp:262-332 | A run from a sound state that the scheduler allows, three turns with a reading each, at the end of which not every rollup is exact. |
| StraddlingRuns.OnlyLevelTwoOvertakes | src/Stats.cpp:262-332 | All that this run lacks is that in the second turn, with levels 1 and 2 both due at 102 and clock readings 101.9 and 102.1, level 2 overtakes level 1. |
| MessageStream.FindFrom | src/Socket.cpp:426-428 | The first occurrence of the closing tag at or after a position, or none if there is none. |
| MessageStream.SizeSumWraps | src/Socket.cpp:438-442 | Header length plus declared length is taken modulo 2^64. |
| MessageStream.Socket.Pass | src/Socket.cpp:426-466 | One pass hands over what the specification of a pass says and removes exactly those bytes, or waits and changes nothing. |
| MessageStream.Socket.Receive | src/Socket.cpp:419-469 | One read, then the loop: payloads, left-over and (for a wrapping size) the endless repetition are those of draining buffer plus chunk. |
| MessageStream.FittingPassProgresses | src/Socket.cpp:424-467 | Every non-waiting pass over sizes that fit removes at least the closing tag, so the loop ends. |
| MessageStream.NothingRemovedExactly | src/Socket.cpp:438-442 | A pass removes nothing if and only if the header at the front of the buffer has a length that with the declared length makes exactly 2^64. |
| MessageStream.HangsExactly | src/Socket.cpp:424-467 | The loop repeats for ever on exactly the buffers in which such a header comes to the front. |
| MessageStream.StepIsStable | src/Socket.cpp:426-442 | Bytes that arrive later never change what a pass over a size that fits takes. |
| MessageStream.ChunkingIsInvisible | src/Socket.cpp:424-467 | However a stream is split into reads, payloads and left-over are those of one single read, provided no size that comes to the front wraps. |
| MessageStream.StableExactlyWhenFitting | src/Socket.cpp:438-442 | That later bytes change nothing holds after a frame header if and only if header length plus declared length does not wrap. |
| MessageStream.ChunkingShowsExactly | src/Socket.cpp:424-467 | For a stream whose wrapping headers announce uncompressed frames: every way of splitting it into reads gives what one read gives if and only if each wrapping header that comes to the front is the end of the stream. |
| MessageStream.IndifferentMayBeSplit | src/Socket.cpp:424-467 | For every stream, compressed frames included: if behind each wrapping header nothing is missing that changes what it opens to, the stream may be read in any pieces. |
| MessageStream.WrappingHeaderShows | src/Socket.cpp:438-460 | Splitting behind any uncompressed wrapping header with something behind it gives another result than one read. |
| MessageStream.MessagesAreRecovered | src/Socket.cpp:424-467 | Any mixture of plain texts, frames and frames that do not inflate drains into exactly the texts with their tags and what the frames stand for, in order; the beginning of a further message stays where it is. |
| MessageStream.MessagesArriveInAnyPieces | src/Socket.cpp:424-467 | The same however the bytes are split into reads. |
| Framing.HeaderEndsAtItsTag | src/Socket.cpp:678-679 | The closing tag of a frame header first occurs at its end. |
| Framing.HeaderReadsBack | src/Socket.cpp:150-190 | Reading a printed frame header gives its length and its compression flag, for every 64-bit length. |
| Framing.FramedExactly | src/Socket.cpp:150-190 | A text is a frame header if and only if its root element is an `isr` of type 105 that has a length. |
| Framing.ReplyIsWellFramed | src/Socket.cpp:664-681 | The framing at the end of `parse` produces a well-formed frame that stands for the reply, compressed exactly if zlib produced something. |
| Framing.ItemsSurviveTheWire | src/Socket.cpp:424-467 | Requests and framed replies in any mixture, delivered in any pieces, come back whole and in order, although bodies contain closing tags. |
| Framing.WrappingInput | src/Socket.cpp:438-442 | A printed header with the length 2^64-1 and one byte: read in two pieces it gives other messages than in one. |
| Framing.RepeatingInput | src/Socket.cpp:438-442 | A printed header whose length makes the sum exactly 2^64: the loop hands over an empty text for ever. |
| Topology.AncestorsCharacterised | contrib/istat-smart-helper.py:27-36 | On every graph, cyclic ones included, the result is exactly the leaves reachable through valid names, plus `unknown-topology` if and only if an invalid name or a cycle is reachable. |
| Topology.AncestorsNonEmpty | contrib/istat-smart-helper.py:27-36 | No name of any graph is left without an answer. |
| Topology.ReachableLeafIsFound | contrib/istat-smart-helper.py:29-36 | The per-path `seen` set hides no reachable leaf. |
| Topology.LassoIsReported | contrib/istat-smart-helper.py:29-30 | A path that runs into a cycle is reported. |
| Registry.RegistryReader.AddParents | contrib/istat-smart-helper.py:83-87 | One entry's parents are added to those already known: its parent, and `unknown-topology` when uncertain. |
| Registry.RegistryReader.RecordName | contrib/istat-smart-helper.py:73-90 | The tables after one named entry: traits of physical devices (conflicts are unsafe), parents, member count. |
| Registry.RegistryReader.Visit | contrib/istat-smart-helper.py:65-92 | The recursive walk updates the three tables as the function of one entry and its inherited context says. |
| Registry.RegistryReader.Topology | contrib/istat-smart-helper.py:60-106 | The whole discovery, with the RAID check in the given listing order. |
| Registry.DiscoveredSound | contrib/istat-smart-helper.py:60-101 | The devices found are exactly the validly named entries of the forest, and the parents of each are exactly its nearest named ancestors and, if one of its occurrences is under a degraded set, `unknown-topology`. |
| Registry.CountsAreRegistryCounts | contrib/istat-smart-helper.py:67-90 | A name has a member count exactly if some occurrence of it lies at or below a RAID set, the nearest one, whose members can be read; its count is that of the last such occurrence. |
| Registry.UncertainExactly | contrib/istat-smart-helper.py:67-72 | The names under a degraded set are exactly those with an occurrence at or below a set that is not online or hides its members. |
| Registry.QuerySafeExactly | contrib/istat-smart-helper.py:74-82 | The disk-sleep policy: a device may be queried if and only if it has a physical occurrence and all of them agree and are whole, of an internal native SSD and under no degraded set. |
| Registry.AllSettled | contrib/istat-smart-helper.py:103-105 | In any listing order, each listed name ends with its number of distinct ancestors or with the marker among them; later additions never undo this. |
| Registry.RaidCheckExact | contrib/istat-smart-helper.py:103-105 | The check settles every name, for all counts and orders, if and only if no registry entry is called `unknown-raid-member`. |
| Registry.DiscoveryIsComplete | contrib/istat-smart-helper.py:60-106 | The same for a whole discovery of any forest without an entry called `unknown-raid-member`, with the member counts of the registry. |
| Registry.DiscoveryCounterexample | contrib/istat-smart-helper.py:103-105 | A two-member set whose only device carries the marker's name ends up unsettled. |
| Registry.UncertainDevicesStayUnknown | contrib/istat-smart-helper.py:68-87 | A device under a degraded or unreadable set keeps `unknown-topology` among its ancestors if and only if no registry entry of that name has a parent or a member count other than one, or a cycle can be reached from the device. |
| Registry.UncertaintyReadOffRegistry | contrib/istat-smart-helper.py:68-87 | Unless an entry is called `unknown-raid-member`, the cycle of that condition is one of the parents that the registry itself records. |
| Registry.UncertaintyCounterexample | contrib/istat-smart-helper.py:68-87 | A disk `d` with an entry called `unknown-topology` beside a degraded volume `X`: the ancestors of `X` are just `d`. |
| Health.StatusBits | contrib/istat-smart-helper.py:120-125 | Of the eight status bits that smartctl reports, all must be clear for a pass. |
| Health.CollectPassesExactly | contrib/istat-smart-helper.py:142-174 | A device is `passed` if and only if its name is usable and known-safe where that matters, its tool ran and said so, and no warning bit was set. |
| Verdicts.CollectedExactly | contrib/istat-smart-helper.py:108-174 | For each of the other verdicts, exactly when a device gets it: policy, tool, exit status bit by bit, and self-assessment. |
| Health.AggregateMeaning | contrib/istat-smart-helper.py:177-185 | The verdict of a volume by which states occur; one bad, missing or unknown member spoils a pass. |
| Health.OldestIsMinimum | contrib/istat-smart-helper.py:195-195 | The time of a volume is the earliest of its recorded devices. |
| Health.MinimumChecked | contrib/istat-smart-helper.py:195-195 | The loop computes it, with 0 if there is none. |
| Health.DescribeVolume | contrib/istat-smart-helper.py:192-200 | The entry of one volume describes its ancestors; mapper aliases those of their target. |
| Health.Snapshot | contrib/istat-smart-helper.py:188-201 | The snapshot has exactly one entry for each name of the graph. |
| Health.SmartMetadata.Refresh | src/stats/SmartMetadata.h:29-54 | Within 30 seconds nothing changes; otherwise the cache is replaced as a whole, or emptied. |
| Health.SmartMetadata.Lookup | src/stats/SmartMetadata.h:55-63 | The cached entry, reported as stale when its time is missing, older than 900 seconds or more than 60 ahead. |
| Health.CheckedReadsBack | src/stats/SmartMetadata.h:46-49 | The printed time of a volume reads back as itself. |
| Health.LookupPassesExactly | src/stats/SmartMetadata.h:55-63 | A client is told `passed` for a listed volume if and only if it has ancestors, every one of them passed its own probe (so none is an `unknown-` name), no observation is older than 900 seconds, and the earliest is at most 60 ahead. |
| Verdicts.ToldExactly | src/stats/SmartMetadata.h:55-63 | What a client is told about any listed volume, aliases by their target: `stale` if and only if the observations of its devices are not fresh, and else the sum of the devices' verdicts; with the names of exactly these devices. |
| Verdicts.JoinedIsSeparated | contrib/istat-smart-helper.py:201-201 | The names of the devices are separated by commas. |
| Verdicts.UnlistedIsUnknown | src/stats/SmartMetadata.h:55-58 | A volume that is not listed has no health at all. |
| Health.DiscoveredIsWellAliased | contrib/istat-smart-helper.py:60-107 | Discovered macOS topologies satisfy what the end-to-end results ask of a graph. |
| Health.DegradedRaidNeverPasses | contrib/istat-smart-helper.py:102-106 | A volume that is reported as `passed` occurs under no degraded set, except where an entry called `unknown-topology` hides the mark; and, unless an entry is called `unknown-raid-member`, it has exactly as many devices as its RAID set in the registry has members. |
| Health.UnmarkedIsComplete | contrib/istat-smart-helper.py:102-106 | The same for any name without an `unknown-` ancestor. |
| Health.DegradedVolumeExample | contrib/istat-smart-helper.py:68-87 | In the counterexample the degraded volume is reported as `passed` if and only if the disk `d` is healthy. |
| Utf8.CheckSequence | contrib/settings/Settings.cpp:22-30 | The bit assembly and the value tests accept exactly the multi-byte characters of the RFC 3629 grammar. |
| Utf8.CheckOne | contrib/settings/Settings.cpp:19-31 | One round advances over exactly one permitted character, or the rest is not permitted. |
| Utf8.Check | contrib/settings/Settings.cpp:17-33 | Accepted are exactly the byte strings of section 4 of RFC 3629 without control characters other than TAB, LF and CR. |
| Utf8.SequenceAccepted | contrib/settings/Settings.cpp:29-30 | The tests on the computed value reject exactly what the second-byte ranges of the grammar reject. |
| Utf8.WellFormedExactlyEncodings | contrib/settings/Settings.cpp:22-30 | The grammar generates exactly the encodings of sequences of Unicode scalar values: no overlong form, surrogate or value above 0x10FFFF. |
| Escape.Quote | contrib/settings/Settings.cpp:34-44 | The loop prints the JSON string that the specification of quoting says. |
| Escape.QuotedReadsBack | contrib/settings/Settings.cpp:34-44 | Reading a quoted string by section 7 of RFC 8259 gives it back and stops at its closing mark, whatever follows. |
| Escape.QuotedAsIs | contrib/settings/Settings.cpp:34-44 | Text without quotation marks, backslashes and control characters is printed as it is, and control characters with lower-case digits. |
| Escape.EncodeForXml | src/Responses.cpp:161-190 | The loop prints the encoded attribute value, character by character. |
| Escape.AttributeReadsBack | src/Responses.cpp:161-190 | Reading an encoded attribute value (sections 4.1 and 4.6 of XML 1.0, references read as bytes) gives it back, for every byte string, up to the closing quote. |
| Escape.EncodedHasNoDelimiter | src/Responses.cpp:169-186 | The encoded text holds no `<`, `>` or quotation mark, no control character below 32 and no byte above 127. |
| Escape.EncodedAsIs | src/Responses.cpp:161-190 | Characters from 32 to 127 other than the five special ones stand for themselves. |
| Text.TrimOf | contrib/settings/Settings.cpp:13-16 | Trimming strips exactly the surrounding blanks: any text padded with blanks trims to the same. |
| Text.TrimSplits | src/Utility.cpp:231-247 | What is trimmed away is blank, and what is left neither starts nor ends with a blank. |
| Acceptance.LinesOf | contrib/settings/Settings.cpp:56-58 | A text is cut at its newlines, and what follows the last one is a line if there is anything. |
| Acceptance.TextIsLines | contrib/settings/Settings.cpp:56-58 | Every text consists of such lines and such a rest. |
| Conf.FindSplit | src/Utility.cpp:289-299 | The first position of any delimiter, and how many delimiters do not occur. |
| Conf.CutPiece | src/Utility.cpp:301-317 | One round of `explode` cuts off one piece, quoted pieces whole, and leaves a rest that explodes into the other pieces. |
| Conf.Explode | src/Utility.cpp:279-321 | The loop computes the specified pieces, none of which is empty and only quoted ones of which hold a delimiter. |
| Conf.ExplodedIntoPieces | src/Utility.cpp:301-317 | For every text and delimiter set, each piece is non-empty and either free of delimiters or a text between two quotation marks. |
| Conf.ItemsAreRecovered | src/Utility.cpp:279-321 | Any list of unquoted or quoted items, with any runs of delimiters between and after them, explodes into exactly these items. |
| Conf.Config.StoreLine | src/Conf.cpp:80-97 | A line without a gap makes the reader throw and leaves the properties alone; otherwise one property is appended, a value in parentheses with its pieces as items and an empty value, any other with the items of the last such line. |
| Conf.Config.Parse | src/Conf.cpp:60-112 | The reader throws if and only if some line has no gap; otherwise it holds one property for each setting, in order, with name, value and items. |
| Conf.ArrayReadsBack | src/Conf.cpp:86-95 | A list of items in parentheses, however it is spaced, is read back as these items. |
| Conf.LastItemsAre | src/Conf.cpp:86-97 | The items that a property keeps are those of the last array up to its own line. |
| Conf.Config.Get | src/Conf.cpp:154-163 | The first setting of that name wins; without one the default is returned. |
| Settings.CollectValues | contrib/settings/Settings.cpp:55-67 | The loop accepts exactly the files whose lines are all settings, and keeps the first value of each wanted key. |
| Settings.ReportOn | contrib/settings/Settings.cpp:68-85 | Port, address and credential are checked and defaulted as specified. |
| Settings.Parse | contrib/settings/Settings.cpp:53-86 | The result for every file: too large, not permitted UTF-8, badly formed, or the reported settings. |
| Acceptance.SettingReadExactly | contrib/settings/Settings.cpp:58-64 | A line is a setting exactly if it consists of blanks, a key, a gap, a value, blanks and a comment, and is ignored exactly if it is blank up to a comment. |
| Acceptance.DaemonReadExactly | src/Conf.cpp:69-97 | The same for the daemon, which also takes a key with only a comment behind its gap for a setting. |
| Acceptance.LinesAcceptedExactly | contrib/settings/Settings.cpp:57-67 | Either reader accepts the lines of a file exactly if each is a setting or ignored. |
| Acceptance.FirstLineDecides | contrib/settings/Settings.cpp:65-67 | In either reader the value under a key is what the first line that sets the key says. |
| Acceptance.AcceptedExactly | contrib/settings/Settings.cpp:53-86 | A file is accepted with a given report if and only if it has at most 262144 bytes of permitted UTF-8, every line is a setting or ignored, the port is a numeral of at most five characters from 1 to 65535, the address is one for `inet_pton`, and the credential has 1 to 4096 bytes and is no array; port, address, credential and its kind are then those of the report. |
| Acceptance.PrintedPortsAreAccepted | contrib/settings/Settings.cpp:71-78 | Every port from 1 to 65535, printed, is such a numeral. |
| Settings.CommentAndTrimCommute | src/Conf.cpp:128-140 | Trimming before or after cutting the comment leaves the same text, up to blanks in front of the comment. |
| Settings.LinesAgree | contrib/settings/Settings.cpp:58-64 | A line that the settings reader ignores or accepts is read alike by the daemon; one that makes the daemon throw is refused. |
| Settings.PasscodesAgreeExactly | src/Socket.cpp:547-555 | Both classify a credential alike if and only if it is not a minus sign followed by a four-digit number without leading zero. |
| Settings.NegativeCodeExample | src/Socket.cpp:547-555 | `-1234` is a passcode to the daemon and a password to the settings reader. |
| Settings.ReadersAgree | contrib/settings/Settings.cpp:53-85 | On every file the settings reader accepts, the daemon does not throw, sees the same port, address and credential, and classifies it alike unless it is such a negative number. |
| ProcStat.OverflowTest | src/stats/LinuxProcStat.h:24-24 | The test by division rejects exactly the digits that would overflow 64 bits. |
| ProcStat.ParseUnsignedProcField | src/stats/LinuxProcStat.h:17-29 | A field is accepted if and only if it is non-empty, all digits and at most 2^64-1; otherwise the caller's value stays. |
| ProcStat.ReadField | src/stats/LinuxProcStat.h:43-52 | Which of the 22 fields stop the reader, and which ones are stored. |
| ProcStat.ParseLinuxProcStat | src/stats/LinuxProcStat.h:31-56 | The record is parsed as specified, and a failed parse leaves the caller's result alone. |
| ProcStat.ResidentBytes | src/stats/LinuxProcStat.h:58-63 | Succeeds if and only if the page size is non-zero and the true product fits, and then stores it. |
| ProcStat.RecordReadsBack | src/stats/LinuxProcStat.h:31-56 | A printed record with any process name (spaces, parentheses, newlines) is accepted if and only if the four numbers are in range, and then gives them back. |
| ProcStat.RecordExactly | src/stats/LinuxProcStat.h:31-56 | A text is accepted with a result if and only if it is a non-zero number, a name in parentheses and at least 22 words, the first of one character and the four numbers in range, and the result is these numbers. |
| ProcStat.WordsExactly | src/stats/LinuxProcStat.h:40-44 | What is extracted from a text are exactly the words that white space separates. |
| Decimal.UnsignedReadsBack | src/Socket.cpp:171-171 | Every 64-bit length that is printed reads back as itself. |
| Decimal.LongReadsBack | src/stats/SmartMetadata.h:48-48 | Printed times read back as themselves, or as the largest `long`. |
| Decimal.LongOfText | src/stats/SmartMetadata.h:48-48 | Of white space, a sign, digits and anything behind them, `strtol` makes the number, cut off at the bounds of `long`. |
| Decimal.UnsignedOfText | src/Socket.cpp:171-171 | `strtoul` likewise; a minus sign negates modulo 2^64. |
| Delivery.ISCProtectedSettingsState.BeginRequest | control-macos/src/ISCProtectedSettingsState.m:10-10 | A new request drops what is pending and keeps the rest. |
| Delivery.ISCProtectedSettingsState.ReceiveResult | control-macos/src/ISCProtectedSettingsState.m:11-20 | Metadata, pending credential and deadline after a reply, for every kind of reply. |
| Delivery.ISCProtectedSettingsState.HasPendingCredential | control-macos/src/ISCProtectedSettingsState.m:21-24 | From the deadline on, nothing is pending any more. |
| Delivery.ISCProtectedSettingsState.TakePendingCredential | control-macos/src/ISCProtectedSettingsState.m:25-30 | The credential is handed out once. |
| Delivery.ISCProtectedSettingsState.Clear | control-macos/src/ISCProtectedSettingsState.m:31-31 | Pending credential and metadata are dropped. |
| Delivery.MetadataHidesCredential | control-macos/src/ISCProtectedSettingsState.m:14-14 | Replies that differ only in the credential leave the same metadata, and it has no such key. |
| Delivery.ISCApp.FinishClient | control-macos/src/ISCSettingsClient.m:37-45 | The completion block runs the first time only. |
| Delivery.ISCApp.RequestProtected | control-macos/src/main.m:648-658 | A permitted request replaces the current one, drops what is pending and stops the timer. |
| Delivery.ISCApp.ReadCompleted | control-macos/src/main.m:658-675 | The completion block of the current request, in all its branches. |
| Delivery.ISCApp.DeliverProtectedCredential | control-macos/src/main.m:677-708 | One attempt to deliver: expired, waiting for the foreground, on the wrong pane, or shown once. |
| Delivery.ISCApp.ClearProtectedState | control-macos/src/main.m:738-745 | Clearing cancels the current request and forgets everything. |
| Delivery.ISCApp.Handle | control-macos/src/main.m:648-750 | Each event handler, updating the app in place, is the step of the state machine. |
| Delivery.AtMostOnce | control-macos/src/main.m:648-708 | In every run each request completes at most once and its credential is shown at most once. |
| Delivery.LateRepliesAreInert | control-macos/src/main.m:659-661 | A reply to a request that is no longer current changes nothing but the record that it came. |
| Delivery.ShownOnlyAsAllowed | control-macos/src/main.m:677-708 | Whenever a credential is shown, the window is in the foreground on the modern Connection pane, and the reply to that very request came less than 30 seconds before, with no clear and no new request since. |
| Showing.HeldExactly | control-macos/src/main.m:658-708 | In every run, a credential is waiting if and only if an accepted reply brought it while the window was elsewhere, and since then nothing was cleared or requested and no attempt was late or in the foreground. |
| Showing.ShownExactly | control-macos/src/main.m:658-708 | In every run, an event shows a credential if and only if it is the reply that brings it, in the foreground and on the pane, or the timer or an activation, in time, in the foreground and on the pane, while the credential is waiting. |
| Showing.ClearingForgets | control-macos/src/main.m:738-745 | Clearing, and an attempt in the foreground on another pane, forget everything, stop the timer, hide the sheet and complete the current request. |
| Showing.RequestStarts | control-macos/src/main.m:648-658 | A request takes effect exactly if it is permitted and nothing else is going on, and then it is the current one, with nothing waiting. |
| Showing.SettingsAreDisplayed | control-macos/src/ISCProtectedSettingsState.m:11-20 | After an accepted reply exactly its four displayable settings are kept, unless its credential met the window on another pane. |
| Showing.SheetShowsLast | control-macos/src/main.m:677-750 | In every run, the sheet is on screen only for the credential shown last, and only if that was to be shown and not copied. |

## Left out

- MessageStream.Socket.Receive: the endless repetition of a pass that removes nothing is cut short and reported by a flag; `MessageStream.HangsExactly` says when that is.
- MessageStream.ChunkingShowsExactly: asks that wrapping headers announce uncompressed frames; for compressed ones `MessageStream.IndifferentMayBeSplit` gives one direction, since what zlib makes of part of a body is a parameter.
- Framing.HeaderReadsBack: libxml2 is a parameter that is asked only to read the frame headers the daemon prints; zlib is a pair of functions of which inflate undoes deflate.
- MessageStream.StableExactlyWhenFitting: is about single passes behind uncompressed headers; whole streams are the subject of `MessageStream.ChunkingShowsExactly`.
- Escape.EncodedHasNoDelimiter: says nothing of `&`, which begins the references; that every one of them is read as a reference follows from `Escape.AttributeReadsBack`.
- Escape.AttributeReadsBack: character references are read as single bytes, as the daemon writes them; an XML reader would turn those above 127 into characters.
- Persistence.HistoryKeepsGrid: one level and one table with a unique id; the per-interface tables of the network collector, whose rows have no key of their own, appear only as what a new interface is loaded with.
- Persistence.StoredLevel.InsertDatabaseItems: the transaction around a flush is taken to succeed as a whole, and SQL text is not modelled.
- Network.StatsNetwork.Update: asks that no interface is read twice in one tick and that rows loaded for a new interface lie in order before the present; the queue of database rows is modelled for the CPU collector only.
- Network.StatsNetwork.RollUpAll: does not say which database rows are queued, because the row queue is modelled for the CPU collector only.
- Network.StatsNetwork.CatchUp: does not say which database rows are queued, for the same reason.
- Network.StatsNetwork.PassLevels: does not say which database rows are queued, for the same reason.
- Network.StatsNetwork.CreateInterface: the flag `active`, uninitialised in the source, starts as false; addresses are not modelled.
- CpuHistory.StatsCPU.ProcessSample: the idle share and the entitlement fields, which are not rolled up, are not kept.
- Delta.DeltasArriveExactlyOnce: the client starts from an id that the level has reached; ids from before a restart of the daemon are told apart by the session, which is not modelled.
- Scheduler.ScheduledRollupsAreExact: asks that no level overtakes its source, which is exact by `Straddle.ClosedUnlessOvertaking`, and that each pass ends at most 593 seconds after the tick before, since the deques hold 600 samples; for later passes `Pyramid.CoveredRollupsAreExact` says which rollups are exact.
- Pyramid.StartIsPoised: asks that the loaded levels are in order; that loading provides this is proved in `Persistence`.
- Settings.Parse: the switch that reveals the credential and the JSON text of the result are not modelled.
- Health.LookupPassesExactly: asks that every device of the graph was observed, as `main` does; for macOS the shape of the graph is proved, for `linux_topology` it is assumed, since reading `/sys` is not modelled.
- Registry.UncertainDevicesStayUnknown: the cycle of the exact condition is one of the final graph, since with an entry called `unknown-raid-member` the RAID check can close one; without it `Registry.UncertaintyReadOffRegistry` holds.
- Health.Snapshot: the order of the entries and the texts shown to people are not modelled.
- Delivery.ISCApp.Handle: windows, tabs and edition are events and flags; clipboard and sheet timers are not modelled.
- Real numbers stand for `double`: rounding of times and percentages is not modelled.
- `StatsActivity` has the same shape as the network collector with four counters, and memory and load the same shape as the CPU collector.
- `StatsLoad::historyItemAtIndex` and `StatsSensors::historyItemAtIndex` are not plain means and are not covered.
- Reading counters from the operating system, TLS, sockets, daemonising, Avahi, the temperature and battery probes, and the Cocoa user interface are not part of this model.
- Configuration merging in `conf/main.cpp` is not part of this model.
