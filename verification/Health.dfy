/** From device probes through the snapshot file to the health a client is told. */
module Health {
  import opened Options
  import opened Decimal
  import opened Topology
  import opened Registry

  /** `NotListed` is the empty state of a volume the file does not mention. */
  datatype State =
    Passed | Failed | Warning | Error | Standby | Unavailable | Unsupported | Unknown | Stale | NotListed

  // ------------------------------------------------------------------
  // One device.
  // ------------------------------------------------------------------

  /** The two booleans read from smartctl's JSON; None when absent or not a boolean. */
  datatype SmartData = SmartData(passed: Option<bool>, available: Option<bool>)

  /** What diskutil says; None stands for any other text. */
  datatype DiskutilStatus = Verified | Failing | NotSupported | Otherwise

  /** The outcome of running a collection tool; `plist` and `json` are None when the output does not parse. */
  datatype ToolRun =
    | NotInstalled
    | Broke
    | Ran(returncode: int, plist: Option<DiskutilStatus>, json: Option<SmartData>)

  datatype Probe = Probe(darwin: bool, ataPath: bool, run: ToolRun)

  function SmartctlHealth(data: SmartData, status: int): State {
    if status == 99 then Standby
    else if status == 98 then Unavailable
    else if data.passed == Some(false) || (status / 8) % 2 != 0 then Failed
    else if status % 8 != 0 then Error
    else if (status / 16) % 16 != 0 then Warning
    else if data.passed == Some(true) then Passed
    else if data.available == Some(false) then Unsupported
    else Unknown
  }

  predicate UnknownName(name: Name) {
    "unknown-" <= name
  }

  predicate IsNvme(name: Name) {
    "nvme" <= name
  }

  function CollectDevice(name: Name, traits: map<Name, Traits>, probe: Probe): State {
    if !DeviceName(name) || UnknownName(name) then Unknown
    else if probe.darwin then
      if name !in traits || !traits[name].querySafe then Unavailable
      else match probe.run
        case NotInstalled => Unavailable
        case Broke => Error
        case Ran(code, plist, _) =>
          if code != 0 || plist.None? then Error
          else match plist.value
            case Verified => Passed
            case Failing => Failed
            case NotSupported => Unsupported
            case Otherwise => Unknown
    else if !IsNvme(name) && !probe.ataPath then Unsupported
    else match probe.run
      case NotInstalled => Unavailable
      case Broke => Error
      case Ran(code, _, json) =>
        if !IsNvme(name) && (code == 98 || code == 99) then SmartctlHealth(SmartData(None, None), code)
        else if json.None? then Error
        else SmartctlHealth(json.value, code)
  }

  /** What it takes for a device to pass, in terms of the tool's own answer. */
  predicate Healthy(name: Name, traits: map<Name, Traits>, probe: Probe) {
    && DeviceName(name) && !UnknownName(name)
    && probe.run.Ran?
    && if probe.darwin then
         name in traits && traits[name].querySafe && probe.run.returncode == 0 && probe.run.plist == Some(Verified)
       else
         && (IsNvme(name) || probe.ataPath)
         && probe.run.returncode % 256 == 0
         && probe.run.json.Some? && probe.run.json.value.passed == Some(true)
  }

  lemma BitsClear(k: int, r: nat, b: nat, a: nat)
    requires r < 16 && b < 2 && a < 8
    ensures (256 * k + (16 * r + 8 * b + a)) % 256 == 16 * r + 8 * b + a
  {
  }

  /** smartctl reports eight warning bits in its exit status: all of them must be clear. */
  lemma StatusBits(status: int)
    ensures status % 256 == 0 <==> status % 8 == 0 && (status / 8) % 2 == 0 && (status / 16) % 16 == 0
  {
    var h, q := status / 8, status / 16;
    assert status == 8 * h + status % 8;
    assert h == 2 * q + h % 2;
    assert q == 16 * (q / 16) + q % 16;
    assert status == 256 * (q / 16) + (16 * (q % 16) + 8 * (h % 2) + status % 8);
    BitsClear(q / 16, q % 16, h % 2, status % 8);
  }

  lemma CollectPassesExactly(name: Name, traits: map<Name, Traits>, probe: Probe)
    ensures CollectDevice(name, traits, probe) == Passed <==> Healthy(name, traits, probe)
  {
    if probe.run.Ran? {
      StatusBits(probe.run.returncode);
    }
  }

  // ------------------------------------------------------------------
  // One volume.
  // ------------------------------------------------------------------

  datatype Record = Record(state: State, checked: nat)

  function StateOf(d: Name, records: map<Name, Record>): State {
    if d in records then records[d].state else Unknown
  }

  function States(devices: seq<Name>, records: map<Name, Record>): seq<State> {
    seq(|devices|, i requires 0 <= i < |devices| => StateOf(devices[i], records))
  }

  function Aggregate(states: seq<State>): State {
    if Failed in states then Failed
    else if Warning in states then Warning
    else if states != [] && forall s | s in states :: s == Passed then Passed
    else if states != [] && forall s | s in states :: s == states[0] then states[0]
    else Unknown
  }

  /** The verdict depends only on which states occur; one bad, missing or unknown member spoils a pass. */
  lemma AggregateMeaning(states: seq<State>)
    ensures Aggregate(states) == Failed <==> Failed in states
    ensures Aggregate(states) == Warning <==> Warning in states && Failed !in states
    ensures Aggregate(states) == Passed <==> Passed in states && forall s | s in states :: s == Passed
    ensures forall s | s in states && (forall r | r in states :: r == s) :: Aggregate(states) == s
    ensures (forall s | s in states :: exists r :: r in states && r != s) && Failed !in states && Warning !in states
      ==> Aggregate(states) == Unknown
  {
    if states != [] {
      assert states[0] in states;
    }
  }

  /** The earliest observation among the listed devices that have one. */
  function Oldest(devices: seq<Name>, records: map<Name, Record>): Option<nat> {
    if devices == [] then None
    else
      var rest := Oldest(devices[1..], records);
      if devices[0] !in records then rest
      else if rest.Some? && rest.value <= records[devices[0]].checked then rest
      else Some(records[devices[0]].checked)
  }

  lemma {:induction false} OldestIsMinimum(devices: seq<Name>, records: map<Name, Record>)
    ensures Oldest(devices, records).None? <==> forall d | d in devices :: d !in records
    ensures Oldest(devices, records).Some? ==>
      && (exists d :: d in devices && d in records && records[d].checked == Oldest(devices, records).value)
      && forall d | d in devices && d in records :: Oldest(devices, records).value <= records[d].checked
  {
    if devices != [] {
      OldestIsMinimum(devices[1..], records);
      assert forall d :: d in devices <==> d == devices[0] || d in devices[1..];
    }
  }

  // ------------------------------------------------------------------
  // The snapshot file.
  // ------------------------------------------------------------------

  datatype Volume = Volume(bsd: string, devices: seq<Name>, state: State, checked: string)

  predicate IsMapper(name: Name) {
    "mapper/" <= name
  }

  /** Device-mapper names are aliases: their single target is looked up instead. */
  function VolumeDevices(name: Name, graph: Graph): set<Name>
    requires name in graph
  {
    if IsMapper(name) then set t, a | t in graph[name] && a in Ancestors(t, graph) :: a else Ancestors(name, graph)
  }

  ghost predicate Describes(v: Volume, name: Name, graph: Graph, records: map<Name, Record>)
    requires name in graph
  {
    && v.bsd == name
    && Lists(v.devices, VolumeDevices(name, graph))
    && v.state == Aggregate(States(v.devices, records))
    && v.checked == Print(var oldest := Oldest(v.devices, records); if oldest.Some? then oldest.value else 0)
  }

  ghost predicate SnapshotOf(volumes: seq<Volume>, graph: Graph, records: map<Name, Record>) {
    && (forall n | n in graph :: exists i :: 0 <= i < |volumes| && volumes[i].bsd == n)
    && (forall v | v in volumes :: v.bsd in graph && Describes(v, v.bsd, graph, records))
  }

  method ListOf(s: set<Name>) returns (l: seq<Name>)
    ensures Lists(l, s) && |l| == |s|
  {
    l := [];
    var rest := s;
    while rest != {}
      invariant rest <= s && |l| + |rest| == |s|
      invariant forall n :: n in l <==> n in s - rest
    {
      var n :| n in rest;
      l, rest := l + [n], rest - {n};
    }
  }

  method MinimumChecked(devices: seq<Name>, records: map<Name, Record>) returns (checked: nat)
    ensures checked == var oldest := Oldest(devices, records); if oldest.Some? then oldest.value else 0
  {
    var best: Option<nat> := None;
    var i := |devices|;
    while i > 0
      invariant 0 <= i <= |devices|
      invariant best == Oldest(devices[i..], records)
    {
      i := i - 1;
      assert devices[i..][1..] == devices[i + 1..];
      if devices[i] in records && (best.None? || records[devices[i]].checked < best.value) {
        best := Some(records[devices[i]].checked);
      }
    }
    assert devices[0..] == devices;
    checked := if best.Some? then best.value else 0;
  }

  method DescribeVolume(name: Name, graph: Graph, records: map<Name, Record>) returns (v: Volume)
    requires name in graph
    requires IsMapper(name) ==> |graph[name]| == 1
    ensures Describes(v, name, graph, records)
  {
    var members := Ancestors(name, graph);
    if IsMapper(name) {
      SingletonMember(graph[name]);
      var target :| target in graph[name];
      members := Ancestors(target, graph);
      assert members == VolumeDevices(name, graph);
    }
    var devices := ListOf(members);
    var checked := MinimumChecked(devices, records);
    v := Volume(name, devices, Aggregate(States(devices, records)), Print(checked));
  }

  method Snapshot(graph: Graph, records: map<Name, Record>) returns (volumes: seq<Volume>)
    requires forall n | n in graph && IsMapper(n) :: |graph[n]| == 1
    ensures SnapshotOf(volumes, graph, records) && |volumes| == |graph|
  {
    volumes := [];
    var names := ListOf(graph.Keys);
    assert forall n :: n in names <==> n in graph;
    for i := 0 to |names|
      invariant |volumes| == i
      invariant forall j | 0 <= j < i :: volumes[j].bsd == names[j] && Describes(volumes[j], names[j], graph, records)
    {
      assert names[i] in names;
      var v := DescribeVolume(names[i], graph, records);
      volumes := volumes + [v];
    }
    forall n | n in graph ensures exists i :: 0 <= i < |volumes| && volumes[i].bsd == n {
      var j :| 0 <= j < |names| && names[j] == n;
      assert volumes[j].bsd == n;
    }
  }

  lemma SingletonMember(s: set<Name>)
    requires |s| == 1
    ensures exists a :: s == {a}
  {
    var a :| a in s;
    assert |s - {a}| == 0;
    assert s == {a};
  }

  // ------------------------------------------------------------------
  // The daemon's side: cached volumes, rate limit and staleness.
  // ------------------------------------------------------------------

  datatype DiskHealth = DiskHealth(devices: string, state: State, checked: int)

  const UNLISTED: DiskHealth := DiskHealth("", NotListed, 0)

  /** Attributes longer than 4096 bytes read as empty. */
  function Attribute(value: string): string {
    if |value| <= 4096 then value else ""
  }

  function Joined(names: seq<Name>): string {
    if names == [] then "" else if |names| == 1 then names[0] else names[0] + "," + Joined(names[1..])
  }

  /** strtol over the whole attribute; anything left over, and anything not positive, reads as 0. */
  function ParseChecked(text: string): (n: int)
    ensures 0 <= n <= LONG_MAX
  {
    var digits := Unsigned(SkipSpaces(text));
    if digits != "" && AllDigits(digits) && StrToLong(text) > 0 then StrToLong(text) else 0
  }

  function Loaded(volumes: seq<Volume>): map<string, DiskHealth> {
    if volumes == [] then map[]
    else
      var v := volumes[|volumes| - 1];
      Loaded(volumes[..|volumes| - 1])[
        Attribute(v.bsd) := DiskHealth(Attribute(Joined(v.devices)), v.state, ParseChecked(Attribute(v.checked)))]
  }

  function LookedUp(volumes: map<string, DiskHealth>, bsd: string, now: int): DiskHealth {
    if bsd !in volumes then UNLISTED
    else
      var h := volumes[bsd];
      if h.checked <= 0 || h.checked > now + 60 || now - h.checked > 900 then h.(state := Stale) else h
  }

  class SmartMetadata {
    var lastRead: int
    var volumes: map<string, DiskHealth>
    /** The volume entries the cache was last filled from. */
    ghost var source: seq<Volume>

    ghost predicate Valid()
      reads this
    {
      volumes == Loaded(source)
    }

    constructor ()
      ensures Valid() && volumes == map[] && lastRead == 0
    {
      lastRead, volumes, source := 0, map[], [];
    }

    /** `file` is None when the path is missing, irregular, too large, or not a version-1 health document. */
    method Refresh(now: int, file: Option<seq<Volume>>)
      requires Valid()
      modifies this
      ensures Valid()
      ensures old(lastRead) <= now < old(lastRead) + 30 ==> unchanged(this)
      ensures !(old(lastRead) <= now < old(lastRead) + 30) ==>
        lastRead == now && source == if file.Some? then file.value else []
    {
      if now >= lastRead && now - lastRead < 30 {
        return;
      }
      lastRead := now;
      volumes, source := map[], [];
      if file.None? {
        return;
      }
      var nodes := file.value;
      var i := 0;
      while i < |nodes|
        invariant 0 <= i <= |nodes|
        invariant volumes == Loaded(nodes[..i])
        invariant lastRead == now
      {
        var node := nodes[i];
        var health := DiskHealth(Attribute(Joined(node.devices)), node.state, ParseChecked(Attribute(node.checked)));
        volumes := volumes[Attribute(node.bsd) := health];
        assert nodes[..i + 1][..i] == nodes[..i];
        i := i + 1;
      }
      assert nodes[..i] == nodes;
      source := nodes;
    }

    method Lookup(bsd: string, now: int) returns (result: DiskHealth)
      requires Valid()
      ensures result == LookedUp(Loaded(source), bsd, now)
    {
      result := UNLISTED;
      if bsd !in volumes {
        return;
      }
      result := volumes[bsd];
      if result.checked <= 0 || result.checked > now + 60 || now - result.checked > 900 {
        result := result.(state := Stale);
      }
    }
  }

  // ------------------------------------------------------------------
  // End to end.
  // ------------------------------------------------------------------

  /** One device's probe and the second at which it was recorded. */
  datatype Observation = Observation(probe: Probe, time: nat)

  function Physical(graph: Graph): set<Name> {
    set n, a | n in graph && a in Ancestors(n, graph) :: a
  }

  /** Every device below some name is collected once. */
  function Collected(graph: Graph, traits: map<Name, Traits>, observed: map<Name, Observation>): map<Name, Record>
    requires Physical(graph) <= observed.Keys
  {
    map d | d in Physical(graph) :: Record(CollectDevice(d, traits, observed[d].probe), observed[d].time)
  }

  /** Every name, and the single target of every alias, is itself a name of the graph. */
  ghost predicate WellAliased(graph: Graph) {
    forall n | n in graph && IsMapper(n) :: |graph[n]| == 1 && forall t | t in graph[n] :: t in graph
  }

  lemma {:induction false} LoadedComesFromVolume(volumes: seq<Volume>, bsd: string) returns (i: nat)
    requires bsd in Loaded(volumes)
    ensures i < |volumes| && Attribute(volumes[i].bsd) == bsd
    ensures Loaded(volumes)[bsd].state == volumes[i].state
    ensures Loaded(volumes)[bsd].checked == ParseChecked(Attribute(volumes[i].checked))
    ensures Loaded(volumes)[bsd].devices == Attribute(Joined(volumes[i].devices))
  {
    var last := |volumes| - 1;
    if Attribute(volumes[last].bsd) == bsd {
      i := last;
    } else {
      i := LoadedComesFromVolume(volumes[..last], bsd);
    }
  }

  lemma {:induction false} VolumeIsLoaded(volumes: seq<Volume>, i: nat)
    requires i < |volumes|
    ensures Attribute(volumes[i].bsd) in Loaded(volumes)
  {
    var last := |volumes| - 1;
    if i < last {
      VolumeIsLoaded(volumes[..last], i);
    }
  }

  lemma NineteenDigits()
    ensures Power10(19) == 10_000_000_000_000_000_000
  {
    assert Power10(10) == 10_000_000_000;
  }

  lemma CheckedReadsBack(n: nat)
    requires n <= LONG_MAX
    ensures ParseChecked(Attribute(Print(n))) == n
  {
    PrintThenValue(n);
    LongReadsBack(n);
    assert IsDigit(Print(n)[0]);
    NineteenDigits();
    PrintIsShort(n, 19);
  }

  lemma {:induction false} PrintIsShort(n: nat, k: nat)
    requires k > 0 && n < Power10(k)
    ensures |Print(n)| <= k
  {
    if n >= 10 {
      PrintIsShort(n / 10, k - 1);
    }
  }

  function Power10(k: nat): nat {
    if k == 0 then 1 else 10 * Power10(k - 1)
  }

  /** All devices below a volume pass, none of their observations is stale, and the earliest is not in the future. */
  ghost predicate AllHealthy(
    devices: set<Name>, traits: map<Name, Traits>, observed: map<Name, Observation>, now: int)
    requires devices <= observed.Keys
  {
    && devices != {}
    && (forall d | d in devices ::
          Healthy(d, traits, observed[d].probe) && 0 < observed[d].time && now - observed[d].time <= 900)
    && exists d | d in devices :: observed[d].time <= now + 60
  }

  lemma DevicesAreCollected(graph: Graph, name: Name)
    requires name in graph && WellAliased(graph)
    ensures VolumeDevices(name, graph) <= Physical(graph)
  {
  }

  lemma VolumeStatePasses(
    v: Volume, name: Name, graph: Graph, traits: map<Name, Traits>, observed: map<Name, Observation>)
    requires name in graph && WellAliased(graph) && Physical(graph) <= observed.Keys
    requires Describes(v, name, graph, Collected(graph, traits, observed))
    ensures v.state == Passed <==>
      && VolumeDevices(name, graph) != {}
      && forall d | d in VolumeDevices(name, graph) :: d in observed && Healthy(d, traits, observed[d].probe)
  {
    DevicesAreCollected(graph, name);
    var records := Collected(graph, traits, observed);
    var states := States(v.devices, records);
    AggregateMeaning(states);
    forall d | d in VolumeDevices(name, graph)
      ensures StateOf(d, records) in states
      ensures StateOf(d, records) == Passed <==> Healthy(d, traits, observed[d].probe)
    {
      var i :| 0 <= i < |v.devices| && v.devices[i] == d;
      assert states[i] == StateOf(d, records);
      CollectPassesExactly(d, traits, observed[d].probe);
    }
    forall s | s in states ensures exists d :: d in VolumeDevices(name, graph) && s == StateOf(d, records) {
      var i :| 0 <= i < |states| && states[i] == s;
      assert v.devices[i] in v.devices;
    }
  }

  /** The state in the file survives the look-up exactly when the recorded times are fresh. */
  lemma VolumeIsFresh(
    v: Volume, name: Name, graph: Graph, traits: map<Name, Traits>, observed: map<Name, Observation>, now: int)
    requires name in graph && WellAliased(graph) && Physical(graph) <= observed.Keys
    requires Describes(v, name, graph, Collected(graph, traits, observed))
    requires VolumeDevices(name, graph) != {}
    requires forall d | d in VolumeDevices(name, graph) && d in observed :: observed[d].time <= LONG_MAX
    ensures var checked := ParseChecked(Attribute(v.checked));
            (0 < checked <= now + 60 && now - checked <= 900) <==>
              && (forall d | d in VolumeDevices(name, graph) ::
                    d in observed && 0 < observed[d].time && now - observed[d].time <= 900)
              && (exists d :: d in VolumeDevices(name, graph) && d in observed && observed[d].time <= now + 60)
  {
    DevicesAreCollected(graph, name);
    var records := Collected(graph, traits, observed);
    OldestIsMinimum(v.devices, records);
    assert forall d :: d in v.devices <==> d in VolumeDevices(name, graph);
    CheckedReadsBack(Oldest(v.devices, records).value);
  }

  lemma PassesAndFresh(
    v: Volume, name: Name, graph: Graph, traits: map<Name, Traits>, observed: map<Name, Observation>, now: int)
    requires name in graph && WellAliased(graph) && Physical(graph) <= observed.Keys
    requires Describes(v, name, graph, Collected(graph, traits, observed))
    requires forall d | d in observed :: observed[d].time <= LONG_MAX
    ensures VolumeDevices(name, graph) <= observed.Keys
    ensures var checked := ParseChecked(Attribute(v.checked));
            (v.state == Passed && 0 < checked <= now + 60 && now - checked <= 900) <==>
              AllHealthy(VolumeDevices(name, graph), traits, observed, now)
  {
    DevicesAreCollected(graph, name);
    VolumeStatePasses(v, name, graph, traits, observed);
    if VolumeDevices(name, graph) != {} {
      VolumeIsFresh(v, name, graph, traits, observed, now);
    }
  }

  lemma ListedVolume(volumes: seq<Volume>, graph: Graph, records: map<Name, Record>, name: Name) returns (v: Volume)
    requires SnapshotOf(volumes, graph, records)
    requires name in graph && 0 < |name| <= 4096
    ensures Describes(v, name, graph, records)
    ensures name in Loaded(volumes)
    ensures Loaded(volumes)[name].state == v.state
    ensures Loaded(volumes)[name].checked == ParseChecked(Attribute(v.checked))
    ensures Loaded(volumes)[name].devices == Attribute(Joined(v.devices))
  {
    var j :| 0 <= j < |volumes| && volumes[j].bsd == name;
    VolumeIsLoaded(volumes, j);
    var i := LoadedComesFromVolume(volumes, name);
    v := volumes[i];
    assert v in volumes;
  }

  /**
   * What a client is told about a listed volume is `passed` exactly when every device below it passed its own
   * probe, no observation is older than 900 seconds, and the earliest is at most 60 seconds ahead of the clock.
   */
  lemma LookupPassesExactly(
    graph: Graph, traits: map<Name, Traits>, observed: map<Name, Observation>, volumes: seq<Volume>, name: Name,
    now: int)
    requires WellAliased(graph) && Physical(graph) <= observed.Keys
    requires forall d | d in observed :: observed[d].time <= LONG_MAX
    requires SnapshotOf(volumes, graph, Collected(graph, traits, observed))
    requires name in graph && 0 < |name| <= 4096
    ensures VolumeDevices(name, graph) <= observed.Keys
    ensures LookedUp(Loaded(volumes), name, now).state == Passed <==>
      AllHealthy(VolumeDevices(name, graph), traits, observed, now)
  {
    var v := ListedVolume(volumes, graph, Collected(graph, traits, observed), name);
    PassesAndFresh(v, name, graph, traits, observed, now);
  }

  // ------------------------------------------------------------------
  // The same on macOS, where RAID sets are in play.
  // ------------------------------------------------------------------

  lemma DeviceNamesAreNotAliases(name: Name)
    requires DeviceName(name)
    ensures !IsMapper(name)
  {
    assert "mapper/"[6] == '/';
    assert |name| > 6 ==> DeviceChar(name[6]);
  }

  lemma DiscoveredIsWellAliased(roots: seq<Root>, order: seq<Name>)
    requires Lists(order, Discovered(roots).raidCounts.Keys)
    ensures WellAliased(FinalGraph(roots, order))
  {
    DiscoveredSound(roots);
    forall n | n in FinalGraph(roots, order) ensures !IsMapper(n) {
      DeviceNamesAreNotAliases(n);
    }
  }

  /**
   * A degraded set that the answers do not show: an entry bears the marker's name, and no cycle gives it away. The
   * cycles are those of the registry, unless the other marker's name occurs, too, and the check can close one.
   */
  ghost predicate Hidden(roots: seq<Root>, order: seq<Name>, name: Name)
    requires Lists(order, Discovered(roots).raidCounts.Keys)
  {
    && !MarkerIsBare(roots)
    && !ReachesCycle(if UNKNOWN_RAID_MEMBER in RootNames(roots) then FinalGraph(roots, order) else RecordedGraph(roots),
                     name)
  }

  /** No marker among its ancestors: the name is under no visible degraded set and its member count is met. */
  lemma UnmarkedIsComplete(roots: seq<Root>, order: seq<Name>, name: Name)
    requires Lists(order, Discovered(roots).raidCounts.Keys)
    requires forall d | d in Ancestors(name, FinalGraph(roots, order)) :: !UnknownName(d)
    ensures ShadedIn(RootOccurrences(roots), name) ==> Hidden(roots, order, name)
    ensures var count := RegistryCount(RootOccurrences(roots), name);
            UNKNOWN_RAID_MEMBER !in RootNames(roots) && count.Some? ==>
              |Ancestors(name, FinalGraph(roots, order))| == count.value
  {
    assert UnknownName(UNKNOWN_TOPOLOGY) && UnknownName(UNKNOWN_RAID_MEMBER);
    UncertainExactly(roots, name);
    if name in UncertainRootNames(roots) {
      UncertainDevicesStayUnknown(roots, order, name);
      if UNKNOWN_RAID_MEMBER !in RootNames(roots) {
        CyclesAreRecorded(roots, order, name);
      }
    }
    var count := RegistryCount(RootOccurrences(roots), name);
    if UNKNOWN_RAID_MEMBER !in RootNames(roots) && count.Some? {
      DiscoveryIsComplete(roots, order, name, count.value);
    }
  }

  /**
   * A volume on a RAID set is reported as passed only if the registry showed all of its members, and a
   * device under a degraded set is reported as passed only if a registry entry bears a marker's name.
   */
  lemma DegradedRaidNeverPasses(
    roots: seq<Root>, order: seq<Name>, observed: map<Name, Observation>, volumes: seq<Volume>, name: Name, now: int)
    requires Lists(order, Discovered(roots).raidCounts.Keys)
    requires forall d | d in observed :: observed[d].time <= LONG_MAX
    requires Physical(FinalGraph(roots, order)) <= observed.Keys
    requires SnapshotOf(volumes, FinalGraph(roots, order),
                        Collected(FinalGraph(roots, order), Discovered(roots).traits, observed))
    requires name in RootNames(roots)
    requires LookedUp(Loaded(volumes), name, now).state == Passed
    ensures ShadedIn(RootOccurrences(roots), name) ==> Hidden(roots, order, name)
    ensures var count := RegistryCount(RootOccurrences(roots), name);
            UNKNOWN_RAID_MEMBER !in RootNames(roots) && count.Some? ==>
              |Ancestors(name, FinalGraph(roots, order))| == count.value
  {
    var graph := FinalGraph(roots, order);
    DiscoveredNamesAreNames(roots, name);
    DiscoveredIsWellAliased(roots, order);
    DeviceNamesAreNotAliases(name);
    LookupPassesExactly(graph, Discovered(roots).traits, observed, volumes, name, now);
    UnmarkedIsComplete(roots, order, name);
  }

  /** The exception is real: there the degraded volume `X` is reported as healthy as the disk `d` beside it. */
  lemma DegradedVolumeExample(observed: map<Name, Observation>, volumes: seq<Volume>, now: int)
    returns (roots: seq<Root>, order: seq<Name>)
    ensures Lists(order, Discovered(roots).raidCounts.Keys) && "X" in UncertainRootNames(roots)
    ensures
      var graph, traits := FinalGraph(roots, order), Discovered(roots).traits;
      && Physical(graph) <= observed.Keys
      && (forall d | d in observed :: observed[d].time <= LONG_MAX)
      && SnapshotOf(volumes, graph, Collected(graph, traits, observed)) ==>
        "d" in observed &&
        (LookedUp(Loaded(volumes), "X", now).state == Passed <==> AllHealthy({"d"}, traits, observed, now))
  {
    roots, order := UncertaintyCounterexample();
    var graph, traits := FinalGraph(roots, order), Discovered(roots).traits;
    UncertainNamesOccur(roots, "X");
    DiscoveredIsWellAliased(roots, order);
    DeviceNamesAreNotAliases("X");
    if Physical(graph) <= observed.Keys
      && (forall d | d in observed :: observed[d].time <= LONG_MAX)
      && SnapshotOf(volumes, graph, Collected(graph, traits, observed))
    {
      LookupPassesExactly(graph, traits, observed, volumes, "X", now);
    }
  }

  lemma DiscoveredNamesAreNames(roots: seq<Root>, name: Name)
    requires name in RootNames(roots)
    ensures DeviceName(name)
  {
    DiscoveredSound(roots);
  }
}
