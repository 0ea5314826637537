/** The macOS registry walk of the disk-health helper, and the completeness check on its RAID sets. */
module Registry {
  import opened Options
  import opened Topology

  const UNKNOWN_RAID_MEMBER: Name := "unknown-raid-member"

  /** `members` is 0 when the member list is missing, not a list, or empty. */
  datatype RaidSet = RaidSet(online: bool, members: nat)

  /** A registry entry; `bsdName` is None when the property is missing or not a string. */
  datatype Node =
    | NotADictionary
    | Node(bsdName: Option<Name>, whole: bool, raid: Option<RaidSet>, children: seq<Node>)

  datatype Traits = Traits(model: string, querySafe: bool)

  datatype Root = Root(node: Node, characteristics: Traits)

  /** The three tables the walk fills in. */
  datatype Tables = Tables(graph: Graph, traits: map<Name, Traits>, raidCounts: map<Name, nat>)

  /** What a registry entry inherits from the entries above it. */
  datatype Context = Context(
    characteristics: Traits, parent: Option<Name>, physical: Option<Name>, uncertain: bool, raidCount: Option<nat>)

  const EMPTY: Tables := Tables(map[], map[], map[])

  function TopContext(characteristics: Traits): Context {
    Context(characteristics, None, None, false, None)
  }

  predicate Named(node: Node) {
    node.Node? && node.bsdName.Some? && DeviceName(node.bsdName.value)
  }

  // ------------------------------------------------------------------
  // What one walk does to the tables, as a function.
  // ------------------------------------------------------------------

  function EnterSet(node: Node, ctx: Context): Context
    requires node.Node?
  {
    match node.raid
    case None => ctx
    case Some(set_) =>
      ctx.(uncertain := ctx.uncertain || !set_.online || set_.members == 0,
           raidCount := if set_.members > 0 then Some(set_.members) else None)
  }

  function RecordTraits(node: Node, ctx: Context, traits: map<Name, Traits>): map<Name, Traits>
    requires Named(node)
  {
    var name := node.bsdName.value;
    var safe := ctx.characteristics.querySafe && node.whole && !ctx.uncertain;
    var candidate := ctx.characteristics.(querySafe := safe);
    var agreed := if name in traits && traits[name] != candidate then candidate.(querySafe := false) else candidate;
    traits[name := agreed]
  }

  function ParentsOf(node: Node, ctx: Context, graph: Graph): set<Name>
    requires Named(node)
  {
    var name := node.bsdName.value;
    (if name in graph then graph[name] else {})
    + (if ctx.parent.Some? && ctx.parent.value != "" && ctx.parent.value != name then {ctx.parent.value} else {})
    + (if ctx.uncertain then {UNKNOWN_TOPOLOGY} else {})
  }

  function Record(node: Node, ctx: Context, t: Tables): Tables
    requires Named(node)
  {
    var name := node.bsdName.value;
    Tables(t.graph[name := ParentsOf(node, ctx, t.graph)],
           if ctx.physical.None? then RecordTraits(node, ctx, t.traits) else t.traits,
           if ctx.raidCount.Some? then t.raidCounts[name := ctx.raidCount.value] else t.raidCounts)
  }

  function Below(node: Node, ctx: Context): Context
    requires Named(node)
  {
    var name := node.bsdName.value;
    ctx.(parent := Some(name), physical := if ctx.physical.None? then Some(name) else ctx.physical)
  }

  function Visited(node: Node, ctx: Context, t: Tables): Tables
    decreases node, 0
  {
    if node.NotADictionary? then t
    else
      var inside := EnterSet(node, ctx);
      if Named(node) then VisitedAll(node.children, Below(node, inside), Record(node, inside, t))
      else VisitedAll(node.children, inside, t)
  }

  function VisitedAll(nodes: seq<Node>, ctx: Context, t: Tables): Tables
    decreases nodes, 1
  {
    if nodes == [] then t else VisitedAll(nodes[1..], ctx, Visited(nodes[0], ctx, t))
  }

  function Discovered(roots: seq<Root>, t: Tables := EMPTY): Tables {
    if roots == [] then t
    else Discovered(roots[1..], Visited(roots[0].node, TopContext(roots[0].characteristics), t))
  }

  // ------------------------------------------------------------------
  // The RAID check, as a function of the order in which the counts are listed.
  // ------------------------------------------------------------------

  function MarkIncomplete(graph: Graph, name: Name): Graph
    requires name in graph
  {
    graph[name := graph[name] + {UNKNOWN_RAID_MEMBER}]
  }

  function CheckOne(name: Name, count: nat, graph: Graph): (g: Graph)
    requires name in graph
    ensures g.Keys == graph.Keys
  {
    if |Ancestors(name, graph)| != count then MarkIncomplete(graph, name) else graph
  }

  function CheckAll(order: seq<Name>, counts: map<Name, nat>, graph: Graph): (g: Graph)
    requires forall n | n in order :: n in counts && n in graph
    ensures g.Keys == graph.Keys
  {
    if order == [] then graph else CheckAll(order[1..], counts, CheckOne(order[0], counts[order[0]], graph))
  }

  ghost predicate Lists(order: seq<Name>, keys: set<Name>) {
    forall n :: n in order <==> n in keys
  }

  // ------------------------------------------------------------------
  // The walk itself: recursion that updates the tables in place.
  // ------------------------------------------------------------------

  class RegistryReader {
    var graph: Graph
    var traits: map<Name, Traits>
    var raidCounts: map<Name, nat>

    constructor ()
      ensures View() == EMPTY
    {
      graph, traits, raidCounts := map[], map[], map[];
    }

    ghost function View(): Tables
      reads this
    {
      Tables(graph, traits, raidCounts)
    }

    method AddParents(node: Node, name: Name, ctx: Context)
      requires Named(node) && name == node.bsdName.value
      modifies this`graph
      ensures graph == old(graph)[name := ParentsOf(node, ctx, old(graph))]
    {
      if name !in graph {
        graph := graph[name := {}];
      }
      if ctx.parent.Some? && ctx.parent.value != "" && ctx.parent.value != name {
        graph := graph[name := graph[name] + {ctx.parent.value}];
      }
      if ctx.uncertain {
        graph := graph[name := graph[name] + {UNKNOWN_TOPOLOGY}];
      }
      assert graph[name] == ParentsOf(node, ctx, old(graph));
    }

    /** The table updates for one named entry. */
    method RecordName(node: Node, name: Name, ctx: Context)
      requires Named(node) && name == node.bsdName.value
      modifies this
      ensures View() == Record(node, ctx, old(View()))
    {
      if ctx.physical.None? {
        var candidate := ctx.characteristics;
        candidate := candidate.(querySafe := candidate.querySafe && node.whole && !ctx.uncertain);
        if name in traits && traits[name] != candidate {
          candidate := candidate.(querySafe := false);
        }
        traits := traits[name := candidate];
      }
      AddParents(node, name, ctx);
      if ctx.raidCount.Some? {
        raidCounts := raidCounts[name := ctx.raidCount.value];
      }
    }

    method Visit(node: Node, inherited: Context)
      modifies this
      ensures View() == Visited(node, inherited, old(View()))
      decreases node
    {
      if node.NotADictionary? {
        return;
      }
      var ctx := inherited;
      if node.raid.Some? {
        ctx := ctx.(uncertain := ctx.uncertain || !node.raid.value.online);
        ctx := ctx.(raidCount := if node.raid.value.members > 0 then Some(node.raid.value.members) else None);
        ctx := ctx.(uncertain := ctx.uncertain || ctx.raidCount.None?);
      }
      assert ctx == EnterSet(node, inherited);
      if node.bsdName.Some? && DeviceName(node.bsdName.value) {
        RecordName(node, node.bsdName.value, ctx);
        if ctx.physical.None? {
          ctx := ctx.(physical := Some(node.bsdName.value));
        }
        ctx := ctx.(parent := Some(node.bsdName.value));
      }
      ghost var done := Visited(node, inherited, old(View()));
      assert VisitedAll(node.children, ctx, View()) == done;
      var i := 0;
      while i < |node.children|
        invariant 0 <= i <= |node.children|
        invariant VisitedAll(node.children[i..], ctx, View()) == done
      {
        assert node.children[i..][1..] == node.children[i + 1..];
        Visit(node.children[i], ctx);
        i := i + 1;
      }
    }

    /** The check of the recorded member counts, which marks incomplete sets as it goes. */
    method CheckCounts(order: seq<Name>)
      requires forall n | n in order :: n in raidCounts && n in graph
      modifies this`graph
      ensures graph == CheckAll(order, raidCounts, old(graph))
    {
      ghost var done := CheckAll(order, raidCounts, graph);
      var i := 0;
      while i < |order|
        invariant 0 <= i <= |order|
        invariant graph.Keys == old(graph).Keys
        invariant CheckAll(order[i..], raidCounts, graph) == done
      {
        assert order[i..][1..] == order[i + 1..];
        var name := order[i];
        var count := |Ancestors(name, graph)|;
        if count != raidCounts[name] {
          graph := graph[name := graph[name] + {UNKNOWN_RAID_MEMBER}];
        }
        i := i + 1;
      }
    }

    /** The whole discovery; `order` is the order in which the dictionary lists its RAID counts. */
    method Topology(roots: seq<Root>, order: seq<Name>)
      requires View() == EMPTY
      requires Lists(order, Discovered(roots).raidCounts.Keys)
      modifies this
      ensures raidCounts == Discovered(roots).raidCounts && traits == Discovered(roots).traits
      ensures graph == FinalGraph(roots, order)
    {
      var i := 0;
      while i < |roots|
        invariant 0 <= i <= |roots|
        invariant Discovered(roots[i..], View()) == Discovered(roots)
      {
        assert roots[i..][1..] == roots[i + 1..];
        Visit(roots[i].node, TopContext(roots[i].characteristics));
        i := i + 1;
      }
      DiscoveredSound(roots);
      CheckCounts(order);
    }
  }

  // ------------------------------------------------------------------
  // What the walk finds.
  // ------------------------------------------------------------------

  /** The device names that occur in a registry subtree. */
  function Names(node: Node): set<Name>
    decreases node, 0
  {
    if node.NotADictionary? then {}
    else (if Named(node) then {node.bsdName.value} else {}) + NamesAll(node.children)
  }

  function NamesAll(nodes: seq<Node>): set<Name>
    decreases nodes, 1
  {
    if nodes == [] then {} else Names(nodes[0]) + NamesAll(nodes[1..])
  }

  function RootNames(roots: seq<Root>): set<Name> {
    if roots == [] then {} else Names(roots[0].node) + RootNames(roots[1..])
  }

  /** The names at or below a RAID set that is not online or has no readable member list. */
  function UncertainNames(node: Node, inherited: bool): set<Name>
    decreases node, 0
  {
    if node.NotADictionary? then {}
    else
      var uncertain := inherited || Degraded(node);
      (if Named(node) && uncertain then {node.bsdName.value} else {}) + UncertainNamesAll(node.children, uncertain)
  }

  function UncertainNamesAll(nodes: seq<Node>, inherited: bool): set<Name>
    decreases nodes, 1
  {
    if nodes == [] then {} else UncertainNames(nodes[0], inherited) + UncertainNamesAll(nodes[1..], inherited)
  }

  function UncertainRootNames(roots: seq<Root>): set<Name> {
    if roots == [] then {} else UncertainNames(roots[0].node, false) + UncertainRootNames(roots[1..])
  }

  /** A parent recorded for a device. */
  datatype Edge = Edge(child: Name, parent: Name)

  predicate Degraded(node: Node)
    requires node.Node?
  {
    node.raid.Some? && (!node.raid.value.online || node.raid.value.members == 0)
  }

  /** Each named entry hangs below its nearest named ancestor, and below the marker if it is under a degraded set. */
  function Edges(node: Node, parent: Option<Name>, inherited: bool): (edges: set<Edge>)
    requires parent.Some? ==> DeviceName(parent.value)
    ensures forall e | e in edges :: DeviceName(e.child) && DeviceName(e.parent)
    decreases node, 0
  {
    if node.NotADictionary? then {}
    else
      var uncertain := inherited || Degraded(node);
      if Named(node) then
        EdgesHere(node.bsdName.value, parent, uncertain) + EdgesAll(node.children, node.bsdName, uncertain)
      else EdgesAll(node.children, parent, uncertain)
  }

  function EdgesHere(name: Name, parent: Option<Name>, uncertain: bool): (edges: set<Edge>)
    requires DeviceName(name) && (parent.Some? ==> DeviceName(parent.value))
    ensures forall e | e in edges :: e.child == name && DeviceName(e.parent)
  {
    MarkersAreNames();
    (if parent.Some? && parent.value != name then {Edge(name, parent.value)} else {})
    + (if uncertain then {Edge(name, UNKNOWN_TOPOLOGY)} else {})
  }

  function EdgesAll(nodes: seq<Node>, parent: Option<Name>, inherited: bool): (edges: set<Edge>)
    requires parent.Some? ==> DeviceName(parent.value)
    ensures forall e | e in edges :: DeviceName(e.child) && DeviceName(e.parent)
    decreases nodes, 1
  {
    if nodes == [] then {} else Edges(nodes[0], parent, inherited) + EdgesAll(nodes[1..], parent, inherited)
  }

  function RootEdges(roots: seq<Root>): (edges: set<Edge>)
    ensures forall e | e in edges :: DeviceName(e.child) && DeviceName(e.parent)
  {
    if roots == [] then {} else Edges(roots[0].node, None, false) + RootEdges(roots[1..])
  }

  function ParentsIn(edges: set<Edge>, n: Name): set<Name> {
    set e | e in edges && e.child == n :: e.parent
  }

  function Parents(graph: Graph, n: Name): set<Name> {
    if n in graph then graph[n] else {}
  }

  ghost predicate WellFormed(t: Tables) {
    && t.raidCounts.Keys <= t.graph.Keys
    && (forall n | n in t.graph :: DeviceName(n))
    && (forall n | n in t.raidCounts :: t.raidCounts[n] > 0)
  }

  ghost predicate Gains(graph: Graph, graph': Graph, edges: set<Edge>) {
    forall n :: Parents(graph', n) == Parents(graph, n) + ParentsIn(edges, n)
  }

  /** t' has grown from t by exactly `names` and exactly `edges`. */
  ghost predicate Extends(t: Tables, t': Tables, names: set<Name>, edges: set<Edge>) {
    && t'.graph.Keys == t.graph.Keys + names
    && Gains(t.graph, t'.graph, edges)
    && (WellFormed(t) ==> WellFormed(t'))
  }

  lemma ParentsInUnion(edges: set<Edge>, edges': set<Edge>, n: Name)
    ensures ParentsIn(edges + edges', n) == ParentsIn(edges, n) + ParentsIn(edges', n)
  {
  }

  lemma ExtendsTransitive(t: Tables, u: Tables, v: Tables,
                          names: set<Name>, edges: set<Edge>, names': set<Name>, edges': set<Edge>)
    requires Extends(t, u, names, edges) && Extends(u, v, names', edges')
    ensures Extends(t, v, names + names', edges + edges')
  {
    forall n ensures Parents(v.graph, n) == Parents(t.graph, n) + ParentsIn(edges + edges', n) {
      ParentsInUnion(edges, edges', n);
      assert Parents(v.graph, n) == Parents(u.graph, n) + ParentsIn(edges', n);
    }
  }

  ghost predicate Sane(ctx: Context) {
    && (ctx.raidCount.Some? ==> ctx.raidCount.value > 0)
    && (ctx.parent.Some? ==> DeviceName(ctx.parent.value))
  }

  lemma RecordGains(node: Node, ctx: Context, t: Tables)
    requires Named(node) && Sane(ctx)
    ensures Gains(t.graph, Record(node, ctx, t).graph, EdgesHere(node.bsdName.value, ctx.parent, ctx.uncertain))
  {
    var name := node.bsdName.value;
    var graph, edges := Record(node, ctx, t).graph, EdgesHere(name, ctx.parent, ctx.uncertain);
    ParentsHere(name, ctx.parent, ctx.uncertain);
    forall n ensures Parents(graph, n) == Parents(t.graph, n) + ParentsIn(edges, n) {
      if n != name {
        assert ParentsIn(edges, n) == {};
      }
    }
  }

  lemma RecordSound(node: Node, ctx: Context, t: Tables)
    requires Named(node) && Sane(ctx)
    ensures Extends(t, Record(node, ctx, t), {node.bsdName.value},
                    EdgesHere(node.bsdName.value, ctx.parent, ctx.uncertain))
  {
    RecordGains(node, ctx, t);
  }

  lemma ParentsHere(name: Name, parent: Option<Name>, uncertain: bool)
    requires DeviceName(name) && (parent.Some? ==> DeviceName(parent.value))
    ensures ParentsIn(EdgesHere(name, parent, uncertain), name) ==
      (if parent.Some? && parent.value != "" && parent.value != name then {parent.value} else {})
      + (if uncertain then {UNKNOWN_TOPOLOGY} else {})
  {
    var edges := EdgesHere(name, parent, uncertain);
    if uncertain {
      assert Edge(name, UNKNOWN_TOPOLOGY) in edges;
    }
    if parent.Some? && parent.value != name {
      assert Edge(name, parent.value) in edges;
    }
  }

  lemma {:induction false} VisitedSound(node: Node, ctx: Context, t: Tables)
    requires Sane(ctx)
    ensures Extends(t, Visited(node, ctx, t), Names(node), Edges(node, ctx.parent, ctx.uncertain))
    decreases node, 0
  {
    if node.Node? {
      var inside := EnterSet(node, ctx);
      if Named(node) {
        var u, below := Record(node, inside, t), Below(node, inside);
        RecordSound(node, inside, t);
        VisitedAllSound(node.children, below, u);
        ExtendsTransitive(t, u, VisitedAll(node.children, below, u), {node.bsdName.value},
                          EdgesHere(node.bsdName.value, inside.parent, inside.uncertain),
                          NamesAll(node.children), EdgesAll(node.children, below.parent, below.uncertain));
      } else {
        VisitedAllSound(node.children, inside, t);
      }
    }
  }

  lemma {:induction false} VisitedAllSound(nodes: seq<Node>, ctx: Context, t: Tables)
    requires Sane(ctx)
    ensures Extends(t, VisitedAll(nodes, ctx, t), NamesAll(nodes), EdgesAll(nodes, ctx.parent, ctx.uncertain))
    decreases nodes, 1
  {
    if nodes != [] {
      var u := Visited(nodes[0], ctx, t);
      VisitedSound(nodes[0], ctx, t);
      VisitedAllSound(nodes[1..], ctx, u);
      ExtendsTransitive(t, u, VisitedAll(nodes[1..], ctx, u),
                        Names(nodes[0]), Edges(nodes[0], ctx.parent, ctx.uncertain),
                        NamesAll(nodes[1..]), EdgesAll(nodes[1..], ctx.parent, ctx.uncertain));
    }
  }

  lemma {:induction false} DiscoveredExtends(roots: seq<Root>, t: Tables)
    ensures Extends(t, Discovered(roots, t), RootNames(roots), RootEdges(roots))
  {
    if roots != [] {
      var ctx := TopContext(roots[0].characteristics);
      var u := Visited(roots[0].node, ctx, t);
      VisitedSound(roots[0].node, ctx, t);
      DiscoveredExtends(roots[1..], u);
      ExtendsTransitive(t, u, Discovered(roots[1..], u), Names(roots[0].node), Edges(roots[0].node, None, false),
                        RootNames(roots[1..]), RootEdges(roots[1..]));
    }
  }

  /** The devices of a discovery are exactly the named entries, and their parents exactly the recorded ones. */
  lemma DiscoveredSound(roots: seq<Root>)
    ensures Discovered(roots).graph.Keys == RootNames(roots)
    ensures forall n | n in RootNames(roots) :: Discovered(roots).graph[n] == ParentsIn(RootEdges(roots), n)
    ensures WellFormed(Discovered(roots))
  {
    DiscoveredExtends(roots, EMPTY);
    assert WellFormed(EMPTY);
    var graph := Discovered(roots).graph;
    forall n | n in RootNames(roots) ensures graph[n] == ParentsIn(RootEdges(roots), n) {
      assert Parents(graph, n) == Parents(EMPTY.graph, n) + ParentsIn(RootEdges(roots), n);
    }
  }

  // ------------------------------------------------------------------
  // Which devices may be queried without waking a disk.
  // ------------------------------------------------------------------

  /** One physical occurrence of a device, and what it alone says about the device. */
  datatype Sighting = Sighting(name: Name, traits: Traits)

  /** The topmost named entries of a subtree, in the order of the walk. */
  function Sightings(node: Node, characteristics: Traits, inherited: bool): seq<Sighting>
    decreases node, 0
  {
    if node.NotADictionary? then []
    else
      var uncertain := inherited || Degraded(node);
      if Named(node) then
        var safe := characteristics.querySafe && node.whole && !uncertain;
        [Sighting(node.bsdName.value, characteristics.(querySafe := safe))]
      else SightingsAll(node.children, characteristics, uncertain)
  }

  function SightingsAll(nodes: seq<Node>, characteristics: Traits, inherited: bool): seq<Sighting>
    decreases nodes, 1
  {
    if nodes == [] then []
    else Sightings(nodes[0], characteristics, inherited) + SightingsAll(nodes[1..], characteristics, inherited)
  }

  function RootSightings(roots: seq<Root>): seq<Sighting> {
    if roots == [] then []
    else Sightings(roots[0].node, roots[0].characteristics, false) + RootSightings(roots[1..])
  }

  ghost predicate Sighted(sightings: seq<Sighting>, n: Name) {
    exists s :: s in sightings && s.name == n
  }

  ghost predicate AllSay(sightings: seq<Sighting>, n: Name, traits: Traits) {
    forall s | s in sightings && s.name == n :: s.traits == traits
  }

  /** The table has an entry for each device sighted, and calls it safe when all its sightings do so alike. */
  ghost predicate Tells(traits: map<Name, Traits>, sightings: seq<Sighting>, n: Name) {
    && (n in traits <==> Sighted(sightings, n))
    && (n in traits && traits[n].querySafe ==> AllSay(sightings, n, traits[n]))
    && (forall c: Traits | n in traits && c.querySafe && AllSay(sightings, n, c) :: traits[n] == c)
  }

  lemma RecordTells(node: Node, ctx: Context, traits: map<Name, Traits>, before: seq<Sighting>, n: Name)
    requires Named(node) && Tells(traits, before, n)
    ensures var safe := ctx.characteristics.querySafe && node.whole && !ctx.uncertain;
            var here := Sighting(node.bsdName.value, ctx.characteristics.(querySafe := safe));
            Tells(RecordTraits(node, ctx, traits), before + [here], n)
  {
    var safe := ctx.characteristics.querySafe && node.whole && !ctx.uncertain;
    var here := Sighting(node.bsdName.value, ctx.characteristics.(querySafe := safe));
    var after := before + [here];
    assert here in after;
    assert forall s :: s in after <==> s in before || s == here;
    forall c: Traits | AllSay(after, n, c) ensures AllSay(before, n, c) && (n == here.name ==> c == here.traits) {
    }
  }

  lemma {:induction false} DeeperEntriesKeepTraits(node: Node, ctx: Context, t: Tables)
    requires ctx.physical.Some?
    ensures Visited(node, ctx, t).traits == t.traits
    decreases node, 0
  {
    if node.Node? {
      var inside := EnterSet(node, ctx);
      if Named(node) {
        DeeperListsKeepTraits(node.children, Below(node, inside), Record(node, inside, t));
      } else {
        DeeperListsKeepTraits(node.children, inside, t);
      }
    }
  }

  lemma {:induction false} DeeperListsKeepTraits(nodes: seq<Node>, ctx: Context, t: Tables)
    requires ctx.physical.Some?
    ensures VisitedAll(nodes, ctx, t).traits == t.traits
    decreases nodes, 1
  {
    if nodes != [] {
      DeeperEntriesKeepTraits(nodes[0], ctx, t);
      DeeperListsKeepTraits(nodes[1..], ctx, Visited(nodes[0], ctx, t));
    }
  }

  lemma {:induction false} VisitTells(node: Node, ctx: Context, t: Tables, before: seq<Sighting>, n: Name)
    requires ctx.physical.None? && Tells(t.traits, before, n)
    ensures Tells(Visited(node, ctx, t).traits, before + Sightings(node, ctx.characteristics, ctx.uncertain), n)
    decreases node, 0
  {
    if node.NotADictionary? {
      assert before + [] == before;
    } else {
      var inside := EnterSet(node, ctx);
      if Named(node) {
        RecordTells(node, inside, t.traits, before, n);
        DeeperListsKeepTraits(node.children, Below(node, inside), Record(node, inside, t));
      } else {
        VisitAllTells(node.children, inside, t, before, n);
      }
    }
  }

  lemma {:induction false} VisitAllTells(nodes: seq<Node>, ctx: Context, t: Tables, before: seq<Sighting>, n: Name)
    requires ctx.physical.None? && Tells(t.traits, before, n)
    ensures Tells(VisitedAll(nodes, ctx, t).traits,
                  before + SightingsAll(nodes, ctx.characteristics, ctx.uncertain), n)
    decreases nodes, 1
  {
    if nodes == [] {
      assert before + [] == before;
    } else {
      var first := Sightings(nodes[0], ctx.characteristics, ctx.uncertain);
      VisitTells(nodes[0], ctx, t, before, n);
      VisitAllTells(nodes[1..], ctx, Visited(nodes[0], ctx, t), before + first, n);
      assert before + first + SightingsAll(nodes[1..], ctx.characteristics, ctx.uncertain)
          == before + (first + SightingsAll(nodes[1..], ctx.characteristics, ctx.uncertain));
    }
  }

  lemma {:induction false} DiscoveryTells(roots: seq<Root>, t: Tables, before: seq<Sighting>, n: Name)
    requires Tells(t.traits, before, n)
    ensures Tells(Discovered(roots, t).traits, before + RootSightings(roots), n)
  {
    if roots == [] {
      assert before + [] == before;
    } else {
      var root := roots[0];
      var first := Sightings(root.node, root.characteristics, false);
      VisitTells(root.node, TopContext(root.characteristics), t, before, n);
      DiscoveryTells(roots[1..], Visited(root.node, TopContext(root.characteristics), t), before + first, n);
      assert before + first + RootSightings(roots[1..]) == before + (first + RootSightings(roots[1..]));
    }
  }

  /**
   * A device may be queried exactly when it was sighted and every sighting says the same: an internal native
   * SSD, whole, and under no degraded set.
   */
  lemma QuerySafeExactly(roots: seq<Root>, n: Name)
    ensures n in Discovered(roots).traits <==> Sighted(RootSightings(roots), n)
    ensures n in Discovered(roots).traits && Discovered(roots).traits[n].querySafe <==>
      Sighted(RootSightings(roots), n) && exists c: Traits :: c.querySafe && AllSay(RootSightings(roots), n, c)
  {
    assert Tells(EMPTY.traits, [], n);
    DiscoveryTells(roots, EMPTY, [], n);
    assert [] + RootSightings(roots) == RootSightings(roots);
  }

  // ------------------------------------------------------------------
  // Which member counts are recorded.
  // ------------------------------------------------------------------

  /** A named entry where the walk meets it: the entries from its root down to itself. */
  datatype Occurrence = Occurrence(name: Name, chain: seq<Node>)

  /** The named entries of a subtree in the order of the walk. */
  function Occurrences(node: Node, above: seq<Node>): seq<Occurrence>
    decreases node, 0
  {
    if node.NotADictionary? then []
    else
      (if Named(node) then [Occurrence(node.bsdName.value, above + [node])] else [])
      + OccurrencesAll(node.children, above + [node])
  }

  function OccurrencesAll(nodes: seq<Node>, above: seq<Node>): seq<Occurrence>
    decreases nodes, 1
  {
    if nodes == [] then [] else Occurrences(nodes[0], above) + OccurrencesAll(nodes[1..], above)
  }

  function RootOccurrences(roots: seq<Root>): seq<Occurrence> {
    if roots == [] then [] else Occurrences(roots[0].node, []) + RootOccurrences(roots[1..])
  }

  /** The length of the member list of the nearest set at or above the end of the chain, if it can be read. */
  function MemberCount(chain: seq<Node>): Option<nat> {
    if chain == [] then None
    else
      var entry, above := chain[|chain| - 1], chain[..|chain| - 1];
      if entry.NotADictionary? || entry.raid.None? then MemberCount(above)
      else if entry.raid.value.members == 0 then None
      else Some(entry.raid.value.members)
  }

  /** Of all occurrences of a name, the last one that has a member count decides. */
  function RegistryCount(occurrences: seq<Occurrence>, n: Name): Option<nat> {
    if occurrences == [] then None
    else
      var last, before := occurrences[|occurrences| - 1], occurrences[..|occurrences| - 1];
      if last.name == n && MemberCount(last.chain).Some? then MemberCount(last.chain)
      else RegistryCount(before, n)
  }

  /** There is a count exactly if some occurrence has one. */
  lemma {:induction false} RegistryCountExists(occurrences: seq<Occurrence>, n: Name)
    ensures RegistryCount(occurrences, n).Some? <==>
      exists o :: o in occurrences && o.name == n && MemberCount(o.chain).Some?
  {
    if occurrences != [] {
      var last, before := occurrences[|occurrences| - 1], occurrences[..|occurrences| - 1];
      RegistryCountExists(before, n);
      assert forall o :: o in occurrences <==> o in before || o == last;
    }
  }

  function CountIn(counts: map<Name, nat>, n: Name): Option<nat> {
    if n in counts then Some(counts[n]) else None
  }

  lemma EnterSetCounts(node: Node, ctx: Context, above: seq<Node>)
    requires node.Node? && ctx.raidCount == MemberCount(above)
    ensures EnterSet(node, ctx).raidCount == MemberCount(above + [node])
  {
    assert (above + [node])[..|above|] == above;
  }

  lemma RecordCounts(node: Node, ctx: Context, t: Tables, before: seq<Occurrence>, chain: seq<Node>, n: Name)
    requires Named(node) && ctx.raidCount == MemberCount(chain)
    requires CountIn(t.raidCounts, n) == RegistryCount(before, n)
    ensures CountIn(Record(node, ctx, t).raidCounts, n)
      == RegistryCount(before + [Occurrence(node.bsdName.value, chain)], n)
  {
    var here := Occurrence(node.bsdName.value, chain);
    assert (before + [here])[..|before|] == before;
  }

  lemma ThreeParts<T>(a: seq<T>, b: seq<T>, c: seq<T>)
    ensures a + (b + c) == a + b + c && (b == [] ==> a + b == a && b + c == c)
  {
  }

  lemma {:induction false} VisitCounts(
    node: Node, ctx: Context, t: Tables, above: seq<Node>, before: seq<Occurrence>, n: Name)
    requires ctx.raidCount == MemberCount(above) && CountIn(t.raidCounts, n) == RegistryCount(before, n)
    ensures CountIn(Visited(node, ctx, t).raidCounts, n) == RegistryCount(before + Occurrences(node, above), n)
    decreases node, 0
  {
    if node.NotADictionary? {
      assert before + [] == before;
    } else {
      var inside, chain := EnterSet(node, ctx), above + [node];
      EnterSetCounts(node, ctx, above);
      if Named(node) {
        var here := [Occurrence(node.bsdName.value, chain)];
        RecordCounts(node, inside, t, before, chain, n);
        VisitAllCounts(node.children, Below(node, inside), Record(node, inside, t), chain, before + here, n);
        ThreeParts(before, here, OccurrencesAll(node.children, chain));
      } else {
        VisitAllCounts(node.children, inside, t, chain, before, n);
        ThreeParts(before, [], OccurrencesAll(node.children, chain));
      }
    }
  }

  lemma {:induction false} VisitAllCounts(
    nodes: seq<Node>, ctx: Context, t: Tables, above: seq<Node>, before: seq<Occurrence>, n: Name)
    requires ctx.raidCount == MemberCount(above) && CountIn(t.raidCounts, n) == RegistryCount(before, n)
    ensures CountIn(VisitedAll(nodes, ctx, t).raidCounts, n) == RegistryCount(before + OccurrencesAll(nodes, above), n)
    decreases nodes, 1
  {
    if nodes == [] {
      assert before + [] == before;
    } else {
      var first := Occurrences(nodes[0], above);
      VisitCounts(nodes[0], ctx, t, above, before, n);
      VisitAllCounts(nodes[1..], ctx, Visited(nodes[0], ctx, t), above, before + first, n);
      ThreeParts(before, first, OccurrencesAll(nodes[1..], above));
    }
  }

  lemma {:induction false} DiscoveryCounts(roots: seq<Root>, t: Tables, before: seq<Occurrence>, n: Name)
    requires CountIn(t.raidCounts, n) == RegistryCount(before, n)
    ensures CountIn(Discovered(roots, t).raidCounts, n) == RegistryCount(before + RootOccurrences(roots), n)
  {
    if roots == [] {
      assert before + [] == before;
    } else {
      var top, first := TopContext(roots[0].characteristics), Occurrences(roots[0].node, []);
      VisitCounts(roots[0].node, top, t, [], before, n);
      DiscoveryCounts(roots[1..], Visited(roots[0].node, top, t), before + first, n);
      ThreeParts(before, first, RootOccurrences(roots[1..]));
    }
  }

  /**
   * The recorded counts are those of the registry: a name has one exactly if some occurrence of it lies at or
   * below a set, the nearest one, whose members can be read, and it is that of the last such occurrence.
   */
  lemma CountsAreRegistryCounts(roots: seq<Root>, n: Name)
    ensures CountIn(Discovered(roots).raidCounts, n) == RegistryCount(RootOccurrences(roots), n)
    ensures n in Discovered(roots).raidCounts <==>
      exists o :: o in RootOccurrences(roots) && o.name == n && MemberCount(o.chain).Some?
  {
    DiscoveryCounts(roots, EMPTY, [], n);
    assert [] + RootOccurrences(roots) == RootOccurrences(roots);
    RegistryCountExists(RootOccurrences(roots), n);
  }

  /** Some set at or above the end of the chain is not online or hides its members. */
  ghost predicate Shaded(chain: seq<Node>) {
    exists node :: node in chain && node.Node? && node.raid.Some?
                   && (!node.raid.value.online || node.raid.value.members == 0)
  }

  ghost predicate ShadedIn(occurrences: seq<Occurrence>, n: Name) {
    exists o :: o in occurrences && o.name == n && Shaded(o.chain)
  }

  lemma ShadedAppend(above: seq<Node>, node: Node)
    requires node.Node?
    ensures Shaded(above + [node]) <==> Shaded(above) || Degraded(node)
  {
    assert node in above + [node];
    assert forall x :: x in above + [node] <==> x in above || x == node;
  }

  lemma ShadedInUnion(a: seq<Occurrence>, b: seq<Occurrence>, n: Name)
    ensures ShadedIn(a + b, n) <==> ShadedIn(a, n) || ShadedIn(b, n)
  {
    assert forall o :: o in a + b <==> o in a || o in b;
  }

  lemma ShadedHere(o: Occurrence, n: Name)
    ensures ShadedIn([o], n) <==> o.name == n && Shaded(o.chain)
  {
    assert o in [o];
  }

  lemma {:induction false} UncertainExactlyBelow(node: Node, above: seq<Node>, inherited: bool, n: Name)
    requires inherited <==> Shaded(above)
    ensures n in UncertainNames(node, inherited) <==> ShadedIn(Occurrences(node, above), n)
    decreases node, 0
  {
    if node.Node? {
      var chain, below := above + [node], OccurrencesAll(node.children, above + [node]);
      ShadedAppend(above, node);
      UncertainExactlyIn(node.children, chain, inherited || Degraded(node), n);
      if Named(node) {
        var here := Occurrence(node.bsdName.value, chain);
        ShadedHere(here, n);
        ShadedInUnion([here], below, n);
      } else {
        assert [] + below == below;
      }
    }
  }

  lemma {:induction false} UncertainExactlyIn(nodes: seq<Node>, above: seq<Node>, inherited: bool, n: Name)
    requires inherited <==> Shaded(above)
    ensures n in UncertainNamesAll(nodes, inherited) <==> ShadedIn(OccurrencesAll(nodes, above), n)
    decreases nodes, 1
  {
    if nodes != [] {
      UncertainExactlyBelow(nodes[0], above, inherited, n);
      UncertainExactlyIn(nodes[1..], above, inherited, n);
      ShadedInUnion(Occurrences(nodes[0], above), OccurrencesAll(nodes[1..], above), n);
    }
  }

  /** The devices under a degraded set are those that occur at or below one. */
  lemma {:induction false} UncertainExactly(roots: seq<Root>, n: Name)
    ensures n in UncertainRootNames(roots) <==> ShadedIn(RootOccurrences(roots), n)
  {
    if roots != [] {
      UncertainExactlyBelow(roots[0].node, [], false, n);
      UncertainExactly(roots[1..], n);
      ShadedInUnion(Occurrences(roots[0].node, []), RootOccurrences(roots[1..]), n);
    }
  }

  // ------------------------------------------------------------------
  // RAID completeness.
  // ------------------------------------------------------------------

  /** Exactly `count` distinct ancestors, or a visible marker that some are missing. */
  ghost predicate Settled(graph: Graph, name: Name, count: nat) {
    |Ancestors(name, graph)| == count || UNKNOWN_RAID_MEMBER in Ancestors(name, graph)
  }

  lemma MarkersAreNames()
    ensures DeviceName(UNKNOWN_RAID_MEMBER) && DeviceName(UNKNOWN_TOPOLOGY) && UNKNOWN_RAID_MEMBER != UNKNOWN_TOPOLOGY
  {
    assert UNKNOWN_RAID_MEMBER[8] == 'r';
  }

  lemma {:induction false} WalksSurviveMarking(graph: Graph, k: Name, w: seq<Name>)
    requires k in graph && Walk(graph, w)
    ensures Walk(MarkIncomplete(graph, k), w)
  {
    var marked := MarkIncomplete(graph, k);
    forall i | 0 <= i < |w| - 1 ensures Expands(marked, w[i]) && w[i + 1] in marked[w[i]] {
      assert Expands(graph, w[i]) && w[i + 1] in graph[w[i]];
    }
  }

  lemma {:induction false} UnreachedMarkIsInvisible(graph: Graph, k: Name, n: Name, seen: set<Name>)
    requires k in graph && !Reaches(graph, n, k)
    ensures Ancestors(n, MarkIncomplete(graph, k), seen) == Ancestors(n, graph, seen)
    decreases graph.Keys - seen
  {
    var marked := MarkIncomplete(graph, k);
    ReachesSelf(graph, n);
    if n !in seen && Expands(graph, n) {
      forall p | p in graph[n] ensures Ancestors(p, marked, seen + {n}) == Ancestors(p, graph, seen + {n}) {
        if Reaches(graph, p, k) {
          ReachesStep(graph, n, p, k);
        }
        UnreachedMarkIsInvisible(graph, k, p, seen + {n});
      }
    }
  }

  /** Marking one name leaves every other answer alone or puts the marker in it. */
  lemma MarkingShows(graph: Graph, k: Name, n: Name)
    requires k in graph && DeviceName(k) && UNKNOWN_RAID_MEMBER !in graph
    ensures var marked := MarkIncomplete(graph, k);
            || Ancestors(n, marked) == Ancestors(n, graph)
            || UNKNOWN_RAID_MEMBER in Ancestors(n, marked)
    ensures UNKNOWN_RAID_MEMBER in Ancestors(k, MarkIncomplete(graph, k))
  {
    var marked := MarkIncomplete(graph, k);
    MarkIsFound(graph, k, k, [k]);
    if Reaches(graph, n, k) {
      var w :| WalkBetween(graph, w, n, k);
      MarkIsFound(graph, k, n, w);
    } else {
      UnreachedMarkIsInvisible(graph, k, n, {});
    }
  }

  lemma MarkIsFound(graph: Graph, k: Name, n: Name, w: seq<Name>)
    requires k in graph && DeviceName(k) && UNKNOWN_RAID_MEMBER !in graph && WalkBetween(graph, w, n, k)
    ensures UNKNOWN_RAID_MEMBER in Ancestors(n, MarkIncomplete(graph, k))
  {
    var marked := MarkIncomplete(graph, k);
    WalksSurviveMarking(graph, k, w);
    MarkersAreNames();
    var step := [k, UNKNOWN_RAID_MEMBER];
    assert Walk(marked, step);
    JoinWalks(marked, w, step);
    assert WalkBetween(marked, w + step[1..], n, UNKNOWN_RAID_MEMBER);
    AncestorsCharacterised(marked, n, UNKNOWN_RAID_MEMBER);
  }

  lemma {:induction false} SettledStaysSettled(
    order: seq<Name>, counts: map<Name, nat>, graph: Graph, n: Name, count: nat)
    requires forall k | k in order :: k in counts && k in graph && DeviceName(k)
    requires UNKNOWN_RAID_MEMBER !in graph && Settled(graph, n, count)
    ensures Settled(CheckAll(order, counts, graph), n, count)
  {
    if order != [] {
      var k := order[0];
      MarkingShows(graph, k, n);
      SettledStaysSettled(order[1..], counts, CheckOne(k, counts[k], graph), n, count);
    }
  }

  lemma {:induction false} AllSettled(order: seq<Name>, counts: map<Name, nat>, graph: Graph)
    requires forall k | k in order :: k in counts && k in graph && DeviceName(k)
    requires UNKNOWN_RAID_MEMBER !in graph
    ensures forall n | n in order :: Settled(CheckAll(order, counts, graph), n, counts[n])
  {
    if order != [] {
      var k := order[0];
      var next := CheckOne(k, counts[k], graph);
      MarkingShows(graph, k, k);
      SettledStaysSettled(order[1..], counts, next, k, counts[k]);
      AllSettled(order[1..], counts, next);
    }
  }

  /** The check settles every count, for every table of counts and every order of listing it. */
  ghost predicate CheckAlwaysSettles(graph: Graph) {
    forall counts: map<Name, nat>, order: seq<Name>
      | Lists(order, counts.Keys) && counts.Keys <= graph.Keys
        && (forall n | n in counts :: DeviceName(n) && counts[n] > 0)
      :: forall n | n in counts :: Settled(CheckAll(order, counts, graph), n, counts[n])
  }

  /** It does so exactly when no registry entry carries the marker's own name. */
  lemma RaidCheckExact(graph: Graph)
    ensures CheckAlwaysSettles(graph) <==> UNKNOWN_RAID_MEMBER !in graph
  {
    if UNKNOWN_RAID_MEMBER in graph {
      MarkerNameDefeatsCheck(graph);
    } else {
      forall counts: map<Name, nat>, order: seq<Name>
        | Lists(order, counts.Keys) && counts.Keys <= graph.Keys
          && (forall n | n in counts :: DeviceName(n) && counts[n] > 0)
        ensures forall n | n in counts :: Settled(CheckAll(order, counts, graph), n, counts[n])
      {
        AllSettled(order, counts, graph);
      }
    }
  }

  lemma SelfMarkedMarkerIsNoLeaf(graph: Graph)
    requires UNKNOWN_RAID_MEMBER in graph
    ensures UNKNOWN_RAID_MEMBER !in Ancestors(UNKNOWN_RAID_MEMBER, MarkIncomplete(graph, UNKNOWN_RAID_MEMBER))
  {
    MarkersAreNames();
    AncestorsCharacterised(MarkIncomplete(graph, UNKNOWN_RAID_MEMBER), UNKNOWN_RAID_MEMBER, UNKNOWN_RAID_MEMBER);
  }

  lemma MarkerNameDefeatsCheck(graph: Graph)
    requires UNKNOWN_RAID_MEMBER in graph
    ensures !CheckAlwaysSettles(graph)
  {
    var me := UNKNOWN_RAID_MEMBER;
    var marked := MarkIncomplete(graph, me);
    var count := |Ancestors(me, graph)| + |Ancestors(me, marked)| + 1;
    var counts := map[me := count];
    var order := [me];
    MarkersAreNames();
    assert CheckAll(order, counts, graph) == marked by {
      assert order[1..] == [];
    }
    SelfMarkedMarkerIsNoLeaf(graph);
    assert !Settled(marked, me, counts[me]);
    assert Lists(order, counts.Keys);
  }

  /** The graph a whole discovery returns. */
  ghost function FinalGraph(roots: seq<Root>, order: seq<Name>): (graph: Graph)
    requires Lists(order, Discovered(roots).raidCounts.Keys)
    ensures graph.Keys == RootNames(roots)
  {
    DiscoveredSound(roots);
    CheckAll(order, Discovered(roots).raidCounts, Discovered(roots).graph)
  }

  /** A whole discovery: each name with a member count in the registry ends up settled, in any listing order. */
  lemma DiscoveryIsComplete(roots: seq<Root>, order: seq<Name>, n: Name, count: nat)
    requires UNKNOWN_RAID_MEMBER !in RootNames(roots)
    requires Lists(order, Discovered(roots).raidCounts.Keys)
    requires RegistryCount(RootOccurrences(roots), n) == Some(count)
    ensures Settled(FinalGraph(roots, order), n, count)
  {
    DiscoveredSound(roots);
    CountsAreRegistryCounts(roots, n);
    assert n in order;
    var found := Discovered(roots);
    AllSettled(order, found.raidCounts, found.graph);
  }

  /** The exception is real: a two-member set whose only device is called `unknown-raid-member`. */
  lemma DiscoveryCounterexample() returns (roots: seq<Root>, order: seq<Name>)
    ensures Lists(order, Discovered(roots).raidCounts.Keys) && order == [UNKNOWN_RAID_MEMBER]
    ensures UNKNOWN_RAID_MEMBER in Discovered(roots).graph
      && Discovered(roots).raidCounts == map[UNKNOWN_RAID_MEMBER := 2]
    ensures !Settled(FinalGraph(roots, order), UNKNOWN_RAID_MEMBER, 2)
  {
    var me := UNKNOWN_RAID_MEMBER;
    MarkersAreNames();
    var node := Node(Some(me), true, Some(RaidSet(true, 2)), []);
    var characteristics := Traits("", false);
    roots := [Root(node, characteristics)];
    order := [me];
    var found := Visited(node, TopContext(characteristics), EMPTY);
    assert roots[1..] == [] && order[1..] == [];
    assert Discovered(roots) == Discovered([], found) == found;
    assert found.graph == map[me := {}] && found.raidCounts == map[me := 2];
    var marked := MarkIncomplete(found.graph, me);
    assert Ancestors(me, found.graph) == {me};
    assert CheckAll(order, found.raidCounts, found.graph) == marked;
    assert Ancestors(me, marked) == {UNKNOWN_TOPOLOGY} by {
      assert marked[me] == {me};
      assert Ancestors(me, marked, {me}) == {UNKNOWN_TOPOLOGY};
    }
  }

  // ------------------------------------------------------------------
  // Devices under a degraded set.
  // ------------------------------------------------------------------

  lemma {:induction false} UncertainNamesAreMarked(node: Node, parent: Option<Name>, inherited: bool, n: Name)
    requires parent.Some? ==> DeviceName(parent.value)
    requires n in UncertainNames(node, inherited)
    ensures Edge(n, UNKNOWN_TOPOLOGY) in Edges(node, parent, inherited)
    decreases node, 0
  {
    var uncertain := inherited || Degraded(node);
    if n in UncertainNamesAll(node.children, uncertain) {
      UncertainListsAreMarked(node.children, if Named(node) then node.bsdName else parent, uncertain, n);
    }
  }

  lemma {:induction false} UncertainListsAreMarked(nodes: seq<Node>, parent: Option<Name>, inherited: bool, n: Name)
    requires parent.Some? ==> DeviceName(parent.value)
    requires n in UncertainNamesAll(nodes, inherited)
    ensures Edge(n, UNKNOWN_TOPOLOGY) in EdgesAll(nodes, parent, inherited)
    decreases nodes, 1
  {
    if n in UncertainNames(nodes[0], inherited) {
      UncertainNamesAreMarked(nodes[0], parent, inherited, n);
    } else {
      UncertainListsAreMarked(nodes[1..], parent, inherited, n);
    }
  }

  lemma {:induction false} UncertainRootsAreMarked(roots: seq<Root>, n: Name)
    requires n in UncertainRootNames(roots)
    ensures Edge(n, UNKNOWN_TOPOLOGY) in RootEdges(roots)
  {
    if n in UncertainNames(roots[0].node, false) {
      UncertainNamesAreMarked(roots[0].node, None, false, n);
    } else {
      UncertainRootsAreMarked(roots[1..], n);
    }
  }

  ghost predicate NamesOnly(graph: Graph) {
    forall n, p | n in graph && p in graph[n] :: DeviceName(p)
  }

  /** What the check may add: the marker as a parent, nothing else. */
  ghost predicate OnlyMarks(graph: Graph, graph': Graph) {
    graph.Keys == graph'.Keys
    && forall n | n in graph :: graph[n] <= graph'[n] <= graph[n] + {UNKNOWN_RAID_MEMBER}
  }

  lemma {:induction false} CheckOnlyMarks(order: seq<Name>, counts: map<Name, nat>, graph: Graph)
    requires forall k | k in order :: k in counts && k in graph
    ensures OnlyMarks(graph, CheckAll(order, counts, graph))
  {
    if order != [] {
      CheckOnlyMarks(order[1..], counts, CheckOne(order[0], counts[order[0]], graph));
    }
  }

  /** A leaf stays one through the check exactly if the only count recorded for it, if any, is one. */
  lemma {:induction false} LeafAfterCheck(order: seq<Name>, counts: map<Name, nat>, graph: Graph, m: Name)
    requires DeviceName(m) && forall k | k in order :: k in counts && k in graph
    ensures Leaf(CheckAll(order, counts, graph), m) <==> Leaf(graph, m) && (m in order ==> counts[m] == 1)
  {
    if order != [] {
      var k := order[0];
      if k == m && Leaf(graph, m) {
        assert Ancestors(m, graph) == {m};
      }
      LeafAfterCheck(order[1..], counts, CheckOne(k, counts[k], graph), m);
    }
  }

  ghost predicate ReachesCycle(graph: Graph, n: Name) {
    exists k :: Reaches(graph, n, k) && OnCycle(graph, k)
  }

  lemma UnresolvedMeansCycle(graph: Graph, n: Name)
    requires NamesOnly(graph) && DeviceName(n)
    ensures Unresolved(graph, n) <==> ReachesCycle(graph, n)
  {
    forall k | Reaches(graph, n, k) ensures DeviceName(k) {
      var w :| WalkBetween(graph, w, n, k);
      assert |w| > 1 ==> Expands(graph, w[|w| - 2]) && w[|w| - 1] in graph[w[|w| - 2]];
    }
  }

  /** No registry entry called `unknown-topology` hangs below anything or carries a count other than one. */
  predicate MarkerIsBare(roots: seq<Root>) {
    && ParentsIn(RootEdges(roots), UNKNOWN_TOPOLOGY) == {}
    && RegistryCount(RootOccurrences(roots), UNKNOWN_TOPOLOGY) in {None, Some(1)}
  }

  lemma MarkerIsLeafExactly(roots: seq<Root>, order: seq<Name>)
    requires Lists(order, Discovered(roots).raidCounts.Keys)
    ensures Leaf(FinalGraph(roots, order), UNKNOWN_TOPOLOGY) <==> MarkerIsBare(roots)
  {
    DiscoveredSound(roots);
    MarkersAreNames();
    var found := Discovered(roots);
    LeafAfterCheck(order, found.raidCounts, found.graph, UNKNOWN_TOPOLOGY);
    MarkerHasParentsExactly(roots);
    CountsAreRegistryCounts(roots, UNKNOWN_TOPOLOGY);
  }

  lemma MarkerHasParentsExactly(roots: seq<Root>)
    ensures Leaf(Discovered(roots).graph, UNKNOWN_TOPOLOGY) <==> ParentsIn(RootEdges(roots), UNKNOWN_TOPOLOGY) == {}
  {
    MarkersAreNames();
    DiscoveredExtends(roots, EMPTY);
    var graph := Discovered(roots).graph;
    assert Parents(graph, UNKNOWN_TOPOLOGY)
        == Parents(EMPTY.graph, UNKNOWN_TOPOLOGY) + ParentsIn(RootEdges(roots), UNKNOWN_TOPOLOGY);
  }

  lemma FinalParents(roots: seq<Root>, order: seq<Name>)
    requires Lists(order, Discovered(roots).raidCounts.Keys)
    ensures NamesOnly(FinalGraph(roots, order))
    ensures forall n | n in RootNames(roots) :: ParentsIn(RootEdges(roots), n) <= FinalGraph(roots, order)[n]
  {
    DiscoveredSound(roots);
    var found := Discovered(roots);
    CheckOnlyMarks(order, found.raidCounts, found.graph);
    MarkersAreNames();
    assert NamesOnly(found.graph);
  }

  /**
   * A device under a degraded or unreadable RAID set keeps `unknown-topology` among its ancestors exactly if
   * no registry entry of that name hangs below another one, or a cycle lies below the device.
   */
  lemma UncertainDevicesStayUnknown(roots: seq<Root>, order: seq<Name>, n: Name)
    requires n in UncertainRootNames(roots)
    requires Lists(order, Discovered(roots).raidCounts.Keys)
    ensures UNKNOWN_TOPOLOGY in Ancestors(n, FinalGraph(roots, order)) <==>
      MarkerIsBare(roots) || ReachesCycle(FinalGraph(roots, order), n)
  {
    var graph := FinalGraph(roots, order);
    UncertainRootsAreMarked(roots, n);
    UncertainNamesOccur(roots, n);
    FinalParents(roots, order);
    assert UNKNOWN_TOPOLOGY in graph[n] by {
      assert UNKNOWN_TOPOLOGY in ParentsIn(RootEdges(roots), n);
    }
    assert WalkBetween(graph, [n, UNKNOWN_TOPOLOGY], n, UNKNOWN_TOPOLOGY);
    UnresolvedMeansCycle(graph, n);
    MarkerIsLeafExactly(roots, order);
    AncestorsCharacterised(graph, n, UNKNOWN_TOPOLOGY);
  }

  /** A marker that is no device ends every walk that comes to it, so marking adds no walk between other names. */
  lemma MarksAreDeadEnds(graph: Graph, graph': Graph, w: seq<Name>)
    requires OnlyMarks(graph, graph') && UNKNOWN_RAID_MEMBER !in graph
    requires Walk(graph', w) && w[|w| - 1] != UNKNOWN_RAID_MEMBER
    ensures Walk(graph, w)
  {
    forall i | 0 <= i < |w| - 1 ensures Expands(graph, w[i]) && w[i + 1] in graph[w[i]] {
      assert Expands(graph', w[i]) && w[i + 1] in graph'[w[i]];
      if i + 1 < |w| - 1 {
        assert Expands(graph', w[i + 1]);
      }
    }
  }

  lemma WalksStay(graph: Graph, graph': Graph, w: seq<Name>)
    requires OnlyMarks(graph, graph') && Walk(graph, w)
    ensures Walk(graph', w)
  {
    forall i | 0 <= i < |w| - 1 ensures Expands(graph', w[i]) && w[i + 1] in graph'[w[i]] {
      assert Expands(graph, w[i]) && w[i + 1] in graph[w[i]];
    }
  }

  lemma CycleNamesExpand(graph: Graph, n: Name)
    requires OnCycle(graph, n)
    ensures Expands(graph, n)
  {
    var c :| WalkBetween(graph, c, n, n) && |c| > 1;
    assert Expands(graph, c[0]);
  }

  lemma CycleIsReached(graph: Graph, n: Name, k: Name, w: seq<Name>, c: seq<Name>)
    requires WalkBetween(graph, w, n, k) && WalkBetween(graph, c, k, k) && |c| > 1
    ensures ReachesCycle(graph, n)
  {
    assert Reaches(graph, n, k) && OnCycle(graph, k);
  }

  lemma MarksCloseNoCycle(graph: Graph, graph': Graph, n: Name)
    requires OnlyMarks(graph, graph') && UNKNOWN_RAID_MEMBER !in graph && ReachesCycle(graph', n)
    ensures ReachesCycle(graph, n)
  {
    var k :| Reaches(graph', n, k) && OnCycle(graph', k);
    CycleNamesExpand(graph', k);
    var w :| WalkBetween(graph', w, n, k);
    var c :| WalkBetween(graph', c, k, k) && |c| > 1;
    MarksAreDeadEnds(graph, graph', w);
    MarksAreDeadEnds(graph, graph', c);
    CycleIsReached(graph, n, k, w, c);
  }

  lemma CyclesStay(graph: Graph, graph': Graph, n: Name)
    requires OnlyMarks(graph, graph') && ReachesCycle(graph, n)
    ensures ReachesCycle(graph', n)
  {
    var k :| Reaches(graph, n, k) && OnCycle(graph, k);
    var w :| WalkBetween(graph, w, n, k);
    var c :| WalkBetween(graph, c, k, k) && |c| > 1;
    WalksStay(graph, graph', w);
    WalksStay(graph, graph', c);
    CycleIsReached(graph', n, k, w, c);
  }

  /** The parents that the registry records, as a graph. */
  function RecordedGraph(roots: seq<Root>): Graph {
    map n | n in RootNames(roots) :: ParentsIn(RootEdges(roots), n)
  }

  /** Unless an entry bears the other marker's name, the cycles are those of the registry itself. */
  lemma CyclesAreRecorded(roots: seq<Root>, order: seq<Name>, n: Name)
    requires Lists(order, Discovered(roots).raidCounts.Keys) && UNKNOWN_RAID_MEMBER !in RootNames(roots)
    ensures ReachesCycle(FinalGraph(roots, order), n) <==> ReachesCycle(RecordedGraph(roots), n)
  {
    DiscoveredSound(roots);
    var found := Discovered(roots);
    assert found.graph == RecordedGraph(roots);
    CheckOnlyMarks(order, found.raidCounts, found.graph);
    if ReachesCycle(FinalGraph(roots, order), n) {
      MarksCloseNoCycle(found.graph, FinalGraph(roots, order), n);
    }
    if ReachesCycle(found.graph, n) {
      CyclesStay(found.graph, FinalGraph(roots, order), n);
    }
  }

  /**
   * So without such an entry the condition is one on the registry alone: a device under a degraded set keeps
   * `unknown-topology` exactly if no entry of that name hangs below another one, or the registry's own parents
   * lead from the device into a cycle.
   */
  lemma UncertaintyReadOffRegistry(roots: seq<Root>, order: seq<Name>, n: Name)
    requires n in UncertainRootNames(roots) && UNKNOWN_RAID_MEMBER !in RootNames(roots)
    requires Lists(order, Discovered(roots).raidCounts.Keys)
    ensures UNKNOWN_TOPOLOGY in Ancestors(n, FinalGraph(roots, order)) <==>
      MarkerIsBare(roots) || ReachesCycle(RecordedGraph(roots), n)
  {
    UncertainDevicesStayUnknown(roots, order, n);
    CyclesAreRecorded(roots, order, n);
  }

  lemma UncertainNamesOccur(roots: seq<Root>, n: Name)
    requires n in UncertainRootNames(roots)
    ensures n in RootNames(roots) && DeviceName(n)
  {
    UncertainRootsAreMarked(roots, n);
    DiscoveredExtends(roots, EMPTY);
    assert UNKNOWN_TOPOLOGY in ParentsIn(RootEdges(roots), n);
    assert UNKNOWN_TOPOLOGY in Parents(Discovered(roots).graph, n);
    assert Edge(n, UNKNOWN_TOPOLOGY).child == n;
  }

  function DiskWithDegradedVolume(d: Name, m: Name, x: Name): Node {
    Node(Some(d), true, None,
         [Node(Some(m), false, None, []), Node(Some(x), false, Some(RaidSet(false, 1)), [])])
  }

  lemma DegradedVolumeTables(d: Name, m: Name, x: Name, c: Traits)
    requires DeviceName(d) && DeviceName(m) && DeviceName(x) && d != m && d != x && m != x && c.querySafe
    ensures var found := Visited(DiskWithDegradedVolume(d, m, x), TopContext(c), EMPTY);
            && found.graph == map[d := {}, m := {d}, x := {d, UNKNOWN_TOPOLOGY}]
            && found.raidCounts == map[x := 1] && found.traits == map[d := c]
    ensures x in UncertainNames(DiskWithDegradedVolume(d, m, x), false)
  {
    var disk := DiskWithDegradedVolume(d, m, x);
    var marker, volume := disk.children[0], disk.children[1];
    var top := TopContext(c);
    var below := Below(disk, top);
    var t := Record(disk, top, EMPTY);
    assert EnterSet(disk, top) == top && ParentsOf(disk, top, map[]) == {};
    var u := Record(marker, below, t);
    assert ParentsOf(marker, below, t.graph) == {d};
    var inside := EnterSet(volume, below);
    var v := Record(volume, inside, u);
    assert ParentsOf(volume, inside, u.graph) == {d, UNKNOWN_TOPOLOGY};
    NoChildren(marker, below, t);
    NoChildren(volume, below, u);
    assert disk.children[1..] == [volume] && [volume][1..] == [];
    assert VisitedAll(disk.children, below, t) == VisitedAll([volume], below, u) == VisitedAll([], below, v) == v;
    assert UncertainNames(volume, false) == {x};
    assert UncertainNamesAll([volume], false) == UncertainNames(volume, false) + UncertainNamesAll([], false);
    assert UncertainNamesAll(disk.children, false)
        == UncertainNames(marker, false) + UncertainNamesAll([volume], false);
  }

  lemma NoChildren(node: Node, ctx: Context, t: Tables)
    requires Named(node) && node.children == []
    ensures Visited(node, ctx, t) == Record(node, EnterSet(node, ctx), t)
  {
  }

  lemma LeafAlone(graph: Graph, n: Name, seen: set<Name>)
    requires Leaf(graph, n) && n !in seen
    ensures Ancestors(n, graph, seen) == {n}
  {
  }

  lemma OneParent(graph: Graph, n: Name, p: Name, seen: set<Name>)
    requires DeviceName(n) && n !in seen && n in graph && graph[n] == {p}
    ensures Ancestors(n, graph, seen) == Ancestors(p, graph, seen + {n})
  {
  }

  lemma LeafThroughParent(graph: Graph, m: Name, d: Name, seen: set<Name>)
    requires DeviceName(m) && Leaf(graph, d) && m in graph && graph[m] == {d}
    requires m !in seen && d !in seen && d != m
    ensures Ancestors(m, graph, seen) == {d}
  {
    LeafAlone(graph, d, seen + {m});
    OneParent(graph, m, d, seen);
  }

  lemma TwoParents(graph: Graph, n: Name, p: Name, q: Name, seen: set<Name>, all: set<Name>)
    requires DeviceName(n) && n !in seen && n in graph && graph[n] == {p, q}
    requires Ancestors(p, graph, seen + {n}) == all == Ancestors(q, graph, seen + {n})
    ensures Ancestors(n, graph, seen) == all
  {
  }

  /** A device whose second parent has the first as its only parent stands on the first alone. */
  lemma SharedParent(graph: Graph, d: Name, m: Name, x: Name, seen: set<Name>)
    requires DeviceName(m) && DeviceName(x) && Leaf(graph, d) && d != m && d != x && m != x
    requires m in graph && x in graph && graph[m] == {d} && graph[x] == {d, m}
    requires seen == {}
    ensures Ancestors(x, graph, seen) == {d}
  {
    LeafAlone(graph, d, seen + {x});
    LeafThroughParent(graph, m, d, seen + {x});
    TwoParents(graph, x, d, m, seen, {d});
  }

  lemma DegradedVolumeIsHidden(d: Name, m: Name, x: Name, c: Traits) returns (roots: seq<Root>, order: seq<Name>)
    requires DeviceName(d) && DeviceName(x) && m == UNKNOWN_TOPOLOGY && d != m && d != x && m != x
    requires c.querySafe
    ensures Lists(order, Discovered(roots).raidCounts.Keys) && Discovered(roots).traits == map[d := c]
    ensures x in UncertainRootNames(roots) && Ancestors(x, FinalGraph(roots, order)) == {d}
  {
    roots, order := [Root(DiskWithDegradedVolume(d, m, x), c)], [x];
    MarkersAreNames();
    DegradedVolumeTables(d, m, x, c);
    var found := Visited(roots[0].node, TopContext(c), EMPTY);
    SharedParent(found.graph, d, m, x, {});
    assert roots[1..] == [] && order[1..] == [];
    assert Discovered(roots) == Discovered([], found) == found;
    assert UncertainRootNames(roots) == UncertainNames(roots[0].node, false) + UncertainRootNames([]);
    assert CheckAll(order, found.raidCounts, found.graph) == found.graph;
  }

  /** The exception is real: below disk `d`, an entry called `unknown-topology` beside a degraded volume `X`. */
  lemma UncertaintyCounterexample() returns (roots: seq<Root>, order: seq<Name>)
    ensures Lists(order, Discovered(roots).raidCounts.Keys) && Discovered(roots).traits == map["d" := Traits("", true)]
    ensures "X" in UncertainRootNames(roots) && Ancestors("X", FinalGraph(roots, order)) == {"d"}
  {
    MarkersAreNames();
    roots, order := DegradedVolumeIsHidden("d", UNKNOWN_TOPOLOGY, "X", Traits("", true));
  }
}
