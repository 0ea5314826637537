/** Every verdict on a device and on a volume: when exactly it is given. */
module Verdicts {
  import opened Options
  import opened Decimal
  import opened Topology
  import opened Registry
  import opened Health

  // ------------------------------------------------------------------
  // One device.
  // ------------------------------------------------------------------

  /** Bit k of an exit status. */
  predicate Bit(status: int, k: nat) {
    (status / TwoTo(k)) % 2 == 1
  }

  function TwoTo(k: nat): (n: nat)
    ensures n > 0
  {
    if k == 0 then 1 else 2 * TwoTo(k - 1)
  }

  predicate BitIn(status: int, from: nat, upto: nat)
    decreases upto - from
  {
    from <= upto && (Bit(status, from) || BitIn(status, from + 1, upto))
  }

  lemma LowBits(n: int)
    ensures n % 8 != 0 <==> n % 2 == 1 || (n / 2) % 2 == 1 || (n / 4) % 2 == 1
  {
  }

  lemma FourBits(n: int)
    ensures n % 16 != 0 <==> n % 2 == 1 || (n / 2) % 2 == 1 || (n / 4) % 2 == 1 || (n / 8) % 2 == 1
  {
    var h := n / 8;
    LowBits(n);
    assert n == 8 * h + n % 8 && h == 2 * (h / 2) + h % 2;
    assert n == 16 * (h / 2) + (8 * (h % 2) + n % 8);
  }

  lemma StatusParts(status: int)
    ensures (status / 8) % 2 != 0 <==> Bit(status, 3)
    ensures status % 8 != 0 <==> BitIn(status, 0, 2)
    ensures (status / 16) % 16 != 0 <==> BitIn(status, 4, 7)
  {
    assert TwoTo(1) == 2 && TwoTo(2) == 4 && TwoTo(3) == 8 && TwoTo(4) == 16;
    assert TwoTo(5) == 32 && TwoTo(6) == 64 && TwoTo(7) == 128;
    LowBits(status);
    FourBits(status / 16);
    assert status / 16 / 2 == status / 32 && status / 16 / 4 == status / 64 && status / 16 / 8 == status / 128;
    assert BitIn(status, 0, 2) <==> Bit(status, 0) || Bit(status, 1) || Bit(status, 2) by {
      assert BitIn(status, 2, 2) <==> Bit(status, 2);
      assert BitIn(status, 1, 2) <==> Bit(status, 1) || BitIn(status, 2, 2);
    }
    assert BitIn(status, 4, 7) <==> Bit(status, 4) || Bit(status, 5) || Bit(status, 6) || Bit(status, 7) by {
      assert BitIn(status, 7, 7) <==> Bit(status, 7);
      assert BitIn(status, 6, 7) <==> Bit(status, 6) || BitIn(status, 7, 7);
      assert BitIn(status, 5, 7) <==> Bit(status, 5) || BitIn(status, 6, 7);
    }
  }

  predicate Known(name: Name) {
    DeviceName(name) && !UnknownName(name)
  }

  /** Whether a tool is started at all. */
  predicate Asked(name: Name, traits: map<Name, Traits>, probe: Probe) {
    Known(name)
    && if probe.darwin then name in traits && traits[name].querySafe else IsNvme(name) || probe.ataPath
  }

  /** diskutil answers this. */
  predicate Answers(name: Name, traits: map<Name, Traits>, probe: Probe, status: DiskutilStatus) {
    Asked(name, traits, probe) && probe.darwin && probe.run.Ran? && probe.run.returncode == 0
    && probe.run.plist == Some(status)
  }

  /** smartctl reports that the drive sleeps, or that it cannot tell: an ATA drive needs no output for that. */
  predicate Skips(name: Name, traits: map<Name, Traits>, probe: Probe, code: int) {
    Asked(name, traits, probe) && !probe.darwin && probe.run.Ran? && probe.run.returncode == code
    && (!IsNvme(name) || probe.run.json.Some?)
  }

  /** smartctl has looked at the drive. */
  predicate Judged(name: Name, traits: map<Name, Traits>, probe: Probe) {
    Asked(name, traits, probe) && !probe.darwin && probe.run.Ran? && probe.run.json.Some?
    && probe.run.returncode != 98 && probe.run.returncode != 99
  }

  /** It has, and none of its eight bits is set. */
  predicate Clear(name: Name, traits: map<Name, Traits>, probe: Probe) {
    Judged(name, traits, probe) && !BitIn(probe.run.returncode, 0, 2) && !Bit(probe.run.returncode, 3)
    && !BitIn(probe.run.returncode, 4, 7)
  }

  /** The self-assessment failed, or the bit for a failing disk is set. */
  predicate Fails(run: ToolRun)
    requires run.Ran? && run.json.Some?
  {
    run.json.value.passed == Some(false) || Bit(run.returncode, 3)
  }

  /** Nothing usable came out: the tool broke, or its output does not parse. */
  predicate Useless(name: Name, probe: Probe) {
    || probe.run.Broke?
    || (probe.run.Ran? && if probe.darwin then probe.run.returncode != 0 || probe.run.plist.None?
                          else probe.run.json.None? && (IsNvme(name) || probe.run.returncode !in {98, 99}))
  }

  /** Each verdict, and exactly when it is given. */
  lemma CollectedExactly(name: Name, traits: map<Name, Traits>, probe: Probe)
    ensures CollectDevice(name, traits, probe) == Failed <==>
      Answers(name, traits, probe, Failing) || (Judged(name, traits, probe) && Fails(probe.run))
    ensures CollectDevice(name, traits, probe) == Warning <==>
      && Judged(name, traits, probe) && !Fails(probe.run) && !BitIn(probe.run.returncode, 0, 2)
      && BitIn(probe.run.returncode, 4, 7)
    ensures CollectDevice(name, traits, probe) == Error <==>
      || (Asked(name, traits, probe) && Useless(name, probe))
      || (Judged(name, traits, probe) && !Fails(probe.run) && BitIn(probe.run.returncode, 0, 2))
    ensures CollectDevice(name, traits, probe) == Passed <==>
      || Answers(name, traits, probe, Verified)
      || (Clear(name, traits, probe) && probe.run.json.value.passed == Some(true))
    ensures CollectDevice(name, traits, probe) == Standby <==> Skips(name, traits, probe, 99)
    ensures CollectDevice(name, traits, probe) == Unavailable <==>
      || (Known(name) && probe.darwin && !Asked(name, traits, probe))
      || (Asked(name, traits, probe) && probe.run.NotInstalled?)
      || Skips(name, traits, probe, 98)
    ensures CollectDevice(name, traits, probe) == Unsupported <==>
      || (Known(name) && !probe.darwin && !Asked(name, traits, probe))
      || Answers(name, traits, probe, NotSupported)
      || (Clear(name, traits, probe) && probe.run.json.value.passed.None?
          && probe.run.json.value.available == Some(false))
    ensures CollectDevice(name, traits, probe) !in {Stale, NotListed}
  {
    if probe.run.Ran? {
      StatusParts(probe.run.returncode);
      if probe.run.json.Some? {
        EitherBool(probe.run.json.value.passed);
      }
    }
  }

  lemma EitherBool(b: Option<bool>)
    ensures b.None? || b == Some(true) || b == Some(false)
  {
    match b
    case None =>
    case Some(value) => assert b == if value then Some(true) else Some(false);
  }

  // ------------------------------------------------------------------
  // One volume.
  // ------------------------------------------------------------------

  /** The verdict on each observed device. */
  function VerdictsOn(traits: map<Name, Traits>, observed: map<Name, Observation>): map<Name, State> {
    map d | d in observed :: CollectDevice(d, traits, observed[d].probe)
  }

  /** No observation is missing or older than 900 seconds, and the earliest is at most 60 seconds ahead. */
  ghost predicate Fresh(devices: set<Name>, observed: map<Name, Observation>, now: int) {
    && (forall d | d in devices :: d in observed && 0 < observed[d].time && now - observed[d].time <= 900)
    && (exists d :: d in devices && d in observed && observed[d].time <= now + 60)
  }

  /** Some device gets this verdict. */
  ghost predicate Occurs(devices: set<Name>, verdicts: map<Name, State>, s: State) {
    exists d :: d in devices && d in verdicts && verdicts[d] == s
  }

  ghost predicate Only(devices: set<Name>, verdicts: map<Name, State>, s: State) {
    forall r | Occurs(devices, verdicts, r) :: r == s
  }

  /** Different verdicts, but no failure and no warning. */
  ghost predicate Mixed(devices: set<Name>, verdicts: map<Name, State>) {
    && (forall s :: !Only(devices, verdicts, s))
    && !Occurs(devices, verdicts, Failed) && !Occurs(devices, verdicts, Warning)
  }

  /** What a volume's verdict is, from the verdicts that occur among its devices. */
  ghost predicate Sums(devices: set<Name>, verdicts: map<Name, State>, state: State) {
    && (state == Failed <==> Occurs(devices, verdicts, Failed))
    && (state == Warning <==> Occurs(devices, verdicts, Warning) && !Occurs(devices, verdicts, Failed))
    && (forall s | Occurs(devices, verdicts, s) && Only(devices, verdicts, s) :: state == s)
    && (Mixed(devices, verdicts) ==> state == Unknown)
  }

  /** The records hold the verdicts on these devices. */
  ghost predicate Hold(devices: set<Name>, records: map<Name, Record>, verdicts: map<Name, State>) {
    forall d | d in devices :: d in records && d in verdicts && records[d].state == verdicts[d]
  }

  lemma StatesOccur(
    devices: seq<Name>, all: set<Name>, records: map<Name, Record>, verdicts: map<Name, State>, s: State)
    requires Lists(devices, all) && Hold(all, records, verdicts)
    ensures s in States(devices, records) <==> Occurs(all, verdicts, s)
  {
    var states := States(devices, records);
    if s in states {
      var i :| 0 <= i < |states| && states[i] == s;
      assert devices[i] in all && verdicts[devices[i]] == s;
    }
    if d :| d in all && d in verdicts && verdicts[d] == s {
      var i :| 0 <= i < |devices| && devices[i] == d;
      assert states[i] == s;
    }
  }

  lemma AggregateSums(devices: seq<Name>, all: set<Name>, records: map<Name, Record>, verdicts: map<Name, State>)
    requires Lists(devices, all) && Hold(all, records, verdicts) && all != {}
    ensures Sums(all, verdicts, Aggregate(States(devices, records)))
  {
    var states := States(devices, records);
    forall s ensures s in states <==> Occurs(all, verdicts, s) {
      StatesOccur(devices, all, records, verdicts, s);
    }
    AggregateMeaning(states);
    if Mixed(all, verdicts) {
      forall s | s in states ensures exists r :: r in states && r != s {
        assert !Only(all, verdicts, s);
      }
    }
  }

  lemma RecordsHold(
    devices: set<Name>, graph: Graph, traits: map<Name, Traits>, observed: map<Name, Observation>)
    requires devices <= Physical(graph) <= observed.Keys
    ensures Hold(devices, Collected(graph, traits, observed), VerdictsOn(traits, observed))
  {
  }

  lemma StandsOn(name: Name, target: Name, graph: Graph)
    requires name in graph && if IsMapper(name) then graph[name] == {target} else target == name
    ensures VolumeDevices(name, graph) == Ancestors(target, graph)
  {
  }

  /** `stale` is not something the collector writes. */
  lemma NeverStale(
    devices: set<Name>, traits: map<Name, Traits>, observed: map<Name, Observation>, state: State)
    requires devices != {} && devices <= observed.Keys && Sums(devices, VerdictsOn(traits, observed), state)
    ensures state != Stale
  {
    var verdicts := VerdictsOn(traits, observed);
    forall d | d in devices ensures verdicts[d] != Stale {
      CollectedExactly(d, traits, observed[d].probe);
    }
    var d :| d in devices;
    if Only(devices, verdicts, verdicts[d]) {
      assert Occurs(devices, verdicts, verdicts[d]);
    } else if Mixed(devices, verdicts) {
    } else if Occurs(devices, verdicts, Failed) || Occurs(devices, verdicts, Warning) {
    } else {
      var s :| Only(devices, verdicts, s);
      assert Occurs(devices, verdicts, verdicts[d]);
    }
  }

  /**
   * What a client is told about any listed volume, aliases included: `stale` exactly if the observations of its
   * devices are not fresh, and else the sum of their verdicts; and the names of these devices.
   */
  lemma ToldExactly(
    graph: Graph, traits: map<Name, Traits>, observed: map<Name, Observation>, volumes: seq<Volume>, name: Name,
    target: Name, now: int)
    requires WellAliased(graph) && Physical(graph) <= observed.Keys
    requires forall d | d in observed :: observed[d].time <= LONG_MAX
    requires SnapshotOf(volumes, graph, Collected(graph, traits, observed))
    requires name in graph && 0 < |name| <= 4096
    requires if IsMapper(name) then graph[name] == {target} else target == name
    ensures var told := LookedUp(Loaded(volumes), name, now);
            var devices := Ancestors(target, graph);
            && (told.state == Stale <==> !Fresh(devices, observed, now))
            && (Fresh(devices, observed, now) ==> Sums(devices, VerdictsOn(traits, observed), told.state))
            && (exists names :: Lists(names, devices) && told.devices == Attribute(Joined(names)))
  {
    var devices := Ancestors(target, graph);
    var v := ListedVolume(volumes, graph, Collected(graph, traits, observed), name);
    StandsOn(name, target, graph);
    AncestorsNonEmpty(target, graph, {});
    VolumeTells(v, name, devices, graph, traits, observed, now);
    FreshOrStale(volumes, name, now, v.state, Fresh(devices, observed, now));
  }

  /** The same of the volume's entry in the file. */
  lemma VolumeTells(
    v: Volume, name: Name, devices: set<Name>, graph: Graph, traits: map<Name, Traits>,
    observed: map<Name, Observation>, now: int)
    requires WellAliased(graph) && Physical(graph) <= observed.Keys && name in graph
    requires forall d | d in observed :: observed[d].time <= LONG_MAX
    requires devices == VolumeDevices(name, graph) && devices != {}
    requires Describes(v, name, graph, Collected(graph, traits, observed))
    ensures Lists(v.devices, devices) && v.state != Stale && Sums(devices, VerdictsOn(traits, observed), v.state)
    ensures var checked := ParseChecked(Attribute(v.checked));
            Fresh(devices, observed, now) <==> 0 < checked <= now + 60 && now - checked <= 900
  {
    DevicesAreCollected(graph, name);
    VolumeIsFresh(v, name, graph, traits, observed, now);
    RecordsHold(devices, graph, traits, observed);
    AggregateSums(v.devices, devices, Collected(graph, traits, observed), VerdictsOn(traits, observed));
    NeverStale(devices, traits, observed, v.state);
  }

  lemma FreshOrStale(volumes: seq<Volume>, name: Name, now: int, state: State, isFresh: bool)
    requires name in Loaded(volumes) && Loaded(volumes)[name].state == state
    requires var checked := Loaded(volumes)[name].checked; isFresh <==> 0 < checked <= now + 60 && now - checked <= 900
    ensures LookedUp(Loaded(volumes), name, now)
      == if isFresh then Loaded(volumes)[name] else Loaded(volumes)[name].(state := Stale)
  {
  }

  /** A volume that the registry does not list is unknown to the daemon. */
  lemma {:induction false} UnlistedIsUnknown(volumes: seq<Volume>, name: Name, now: int)
    requires 0 < |name| && forall v | v in volumes :: v.bsd != name
    ensures LookedUp(Loaded(volumes), name, now) == UNLISTED
  {
    if volumes != [] {
      UnlistedIsUnknown(volumes[..|volumes| - 1], name, now);
    }
  }

  /** Each name with a comma behind it. */
  function Followed(names: seq<Name>): string {
    if names == [] then "" else names[0] + ([','] + Followed(names[1..]))
  }

  /** The names are separated by commas, so they can be told apart again. */
  lemma {:induction false} JoinedIsSeparated(names: seq<Name>)
    requires names != []
    ensures Joined(names) + [','] == Followed(names)
  {
    if |names| > 1 {
      JoinedIsSeparated(names[1..]);
      assert Joined(names) + [','] == names[0] + ([','] + (Joined(names[1..]) + [',']));
    }
  }
}
