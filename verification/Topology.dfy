/** The device graph of the disk-health helper and the walk to the physical devices below a name. */
module Topology {

  type Name = string
  type Graph = map<Name, set<Name>>

  const UNKNOWN_TOPOLOGY: Name := "unknown-topology"

  predicate DeviceChar(c: char) {
    'A' <= c <= 'Z' || 'a' <= c <= 'z' || '0' <= c <= '9' || c == '_' || c == '.' || c == '-'
  }

  predicate DeviceName(s: Name) {
    1 <= |s| <= 100 && forall i | 0 <= i < |s| :: DeviceChar(s[i])
  }

  /** The recursive walk. `seen` holds the names on the current path, not all names visited so far. */
  function Ancestors(name: Name, graph: Graph, seen: set<Name> := {}): set<Name>
    decreases graph.Keys - seen
  {
    if name in seen || !DeviceName(name) then {UNKNOWN_TOPOLOGY}
    else if name !in graph || graph[name] == {} then {name}
    else set p, a | p in graph[name] && a in Ancestors(p, graph, seen + {name}) :: a
  }

  // ------------------------------------------------------------------
  // Reachability, independently of the walk.
  // ------------------------------------------------------------------

  predicate Expands(graph: Graph, n: Name) {
    DeviceName(n) && n in graph && graph[n] != {}
  }

  predicate Leaf(graph: Graph, n: Name) {
    DeviceName(n) && !Expands(graph, n)
  }

  ghost predicate Walk(graph: Graph, w: seq<Name>) {
    w != [] && forall i | 0 <= i < |w| - 1 :: Expands(graph, w[i]) && w[i + 1] in graph[w[i]]
  }

  ghost predicate WalkBetween(graph: Graph, w: seq<Name>, source: Name, target: Name) {
    Walk(graph, w) && w[0] == source && w[|w| - 1] == target
  }

  ghost predicate Reaches(graph: Graph, source: Name, target: Name) {
    exists w :: WalkBetween(graph, w, source, target)
  }

  ghost predicate OnCycle(graph: Graph, n: Name) {
    exists w :: WalkBetween(graph, w, n, n) && |w| > 1
  }

  /** A reachable name at which the walk cannot tell what lies below. */
  ghost predicate Unresolved(graph: Graph, n: Name) {
    exists k :: Reaches(graph, n, k) && (!DeviceName(k) || OnCycle(graph, k))
  }

  ghost predicate Simple(w: seq<Name>) {
    forall i, j | 0 <= i < j < |w| :: w[i] != w[j]
  }

  lemma ReachesSelf(graph: Graph, n: Name)
    ensures Reaches(graph, n, n)
  {
    assert WalkBetween(graph, [n], n, n);
  }

  lemma PrependStep(graph: Graph, n: Name, p: Name, w: seq<Name>, k: Name)
    requires Expands(graph, n) && p in graph[n] && WalkBetween(graph, w, p, k)
    ensures WalkBetween(graph, [n] + w, n, k)
  {
  }

  lemma ReachesStep(graph: Graph, n: Name, p: Name, k: Name)
    requires Expands(graph, n) && p in graph[n] && Reaches(graph, p, k)
    ensures Reaches(graph, n, k)
  {
    var w :| WalkBetween(graph, w, p, k);
    PrependStep(graph, n, p, w, k);
  }

  lemma JoinWalks(graph: Graph, u: seq<Name>, v: seq<Name>)
    requires Walk(graph, u) && Walk(graph, v) && u[|u| - 1] == v[0]
    ensures WalkBetween(graph, u + v[1..], u[0], v[|v| - 1])
  {
    var w := u + v[1..];
    forall i | 0 <= i < |w| - 1
      ensures Expands(graph, w[i]) && w[i + 1] in graph[w[i]]
    {
      if i >= |u| - 1 {
        assert w[i] == v[i - (|u| - 1)] && w[i + 1] == v[i + 1 - (|u| - 1)];
      }
    }
  }

  // ------------------------------------------------------------------
  // The walk returns nothing else ...
  // ------------------------------------------------------------------

  lemma {:induction false} AncestorsSound(n: Name, graph: Graph, seen: set<Name>, m: Name)
    requires m in Ancestors(n, graph, seen)
    ensures
      || (Leaf(graph, m) && Reaches(graph, n, m))
      || (m == UNKNOWN_TOPOLOGY && (Unresolved(graph, n) || exists k :: k in seen && Reaches(graph, n, k)))
    decreases graph.Keys - seen
  {
    ReachesSelf(graph, n);
    if n !in seen && Expands(graph, n) {
      var p :| p in graph[n] && m in Ancestors(p, graph, seen + {n});
      AncestorsSound(p, graph, seen + {n}, m);
      if Leaf(graph, m) && Reaches(graph, p, m) {
        ReachesStep(graph, n, p, m);
      } else if Unresolved(graph, p) {
        var k :| Reaches(graph, p, k) && (!DeviceName(k) || OnCycle(graph, k));
        ReachesStep(graph, n, p, k);
      } else {
        var k :| k in seen + {n} && Reaches(graph, p, k);
        ReachesStep(graph, n, p, k);
        if k == n {
          var w :| WalkBetween(graph, w, p, n);
          PrependStep(graph, n, p, w, n);
        }
      }
    }
  }

  // ------------------------------------------------------------------
  // ... and misses nothing, although `seen` cuts paths short.
  // ------------------------------------------------------------------

  /** Following a repetition-free walk from its start: its end decides one member of the result. */
  lemma {:induction false} AncestorsFollow(graph: Graph, w: seq<Name>, seen: set<Name>, m: Name)
    requires Walk(graph, w) && Simple(w[..|w| - 1])
    requires forall i | 0 <= i < |w| - 1 :: w[i] !in seen
    requires var end := w[|w| - 1];
             || (m == UNKNOWN_TOPOLOGY && (!DeviceName(end) || end in seen || end in w[..|w| - 1]))
             || (m == end && Leaf(graph, m) && m !in seen)
    ensures m in Ancestors(w[0], graph, seen)
    decreases |w|
  {
    if |w| > 1 {
      var n, rest := w[0], w[1..];
      assert rest[..|rest| - 1] == w[..|w| - 1][1..];
      forall i | 0 <= i < |rest| - 1 ensures rest[i] !in seen + {n} {
        assert rest[i] == w[..|w| - 1][i + 1] && w[..|w| - 1][0] == n;
      }
      assert rest[|rest| - 1] == w[|w| - 1];
      if w[|w| - 1] in w[..|w| - 1] {
        assert w[..|w| - 1] == [n] + rest[..|rest| - 1];
      }
      AncestorsFollow(graph, rest, seen + {n}, m);
      assert rest[0] in graph[n];
    }
  }

  /** Cutting the detours out of a walk. */
  lemma {:induction false} Shorten(graph: Graph, w: seq<Name>) returns (v: seq<Name>)
    requires Walk(graph, w)
    ensures WalkBetween(graph, v, w[0], w[|w| - 1]) && Simple(v)
    decreases |w|
  {
    if Simple(w) {
      v := w;
    } else {
      var i, j :| 0 <= i < j < |w| && w[i] == w[j];
      var head, tail := w[..i + 1], w[j..];
      assert Walk(graph, head);
      assert Walk(graph, tail) by {
        forall k | 0 <= k < |tail| - 1 ensures Expands(graph, tail[k]) && tail[k + 1] in graph[tail[k]] {
          assert tail[k] == w[j + k] && tail[k + 1] == w[j + k + 1];
        }
      }
      JoinWalks(graph, head, tail);
      v := Shorten(graph, head + tail[1..]);
    }
  }

  /** A walk that repeats a name has a first repetition. */
  lemma {:induction false} FirstRepetition(w: seq<Name>) returns (j: nat)
    requires !Simple(w)
    ensures 0 < j < |w| && Simple(w[..j]) && w[j] in w[..j]
    decreases |w|
  {
    var front := w[..|w| - 1];
    if Simple(front) {
      j := |w| - 1;
      var a, b :| 0 <= a < b < |w| && w[a] == w[b];
      assert b == |w| - 1;
      assert front[a] == w[a];
    } else {
      j := FirstRepetition(front);
      assert front[..j] == w[..j];
    }
  }

  lemma ReachableLeafIsFound(graph: Graph, n: Name, m: Name)
    requires Leaf(graph, m) && Reaches(graph, n, m)
    ensures m in Ancestors(n, graph)
  {
    var w :| WalkBetween(graph, w, n, m);
    var v := Shorten(graph, w);
    AncestorsFollow(graph, v, {}, m);
  }

  /** A walk into a cycle runs onto its own path, where `seen` stops it. */
  lemma LassoIsReported(graph: Graph, w: seq<Name>, c: seq<Name>)
    requires Walk(graph, w) && Walk(graph, c) && |c| > 1
    requires w[|w| - 1] == c[0] == c[|c| - 1]
    ensures UNKNOWN_TOPOLOGY in Ancestors(w[0], graph)
  {
    JoinWalks(graph, w, c);
    var lasso := w + c[1..];
    assert lasso[|w| - 1] == lasso[|lasso| - 1];
    var j := FirstRepetition(lasso);
    var v := lasso[..j + 1];
    assert v[..|v| - 1] == lasso[..j];
    AncestorsFollow(graph, v, {}, UNKNOWN_TOPOLOGY);
  }

  lemma UnresolvedIsReported(graph: Graph, n: Name)
    requires Unresolved(graph, n)
    ensures UNKNOWN_TOPOLOGY in Ancestors(n, graph)
  {
    var k :| Reaches(graph, n, k) && (!DeviceName(k) || OnCycle(graph, k));
    var w :| WalkBetween(graph, w, n, k);
    if DeviceName(k) {
      var c :| WalkBetween(graph, c, k, k) && |c| > 1;
      LassoIsReported(graph, w, c);
    } else {
      var v := Shorten(graph, w);
      AncestorsFollow(graph, v, {}, UNKNOWN_TOPOLOGY);
    }
  }

  /** Exactly the reachable leaves, plus `unknown-topology` when an invalid name or a cycle is reachable. */
  lemma AncestorsCharacterised(graph: Graph, n: Name, m: Name)
    ensures m in Ancestors(n, graph) <==>
      || (Leaf(graph, m) && Reaches(graph, n, m))
      || (m == UNKNOWN_TOPOLOGY && Unresolved(graph, n))
  {
    if m in Ancestors(n, graph) {
      AncestorsSound(n, graph, {}, m);
    } else {
      if Leaf(graph, m) && Reaches(graph, n, m) {
        ReachableLeafIsFound(graph, n, m);
      }
      if Unresolved(graph, n) {
        UnresolvedIsReported(graph, n);
      }
    }
  }

  /** No graph, however cyclic, leaves a name without an answer. */
  lemma {:induction false} AncestorsNonEmpty(n: Name, graph: Graph, seen: set<Name>)
    ensures Ancestors(n, graph, seen) != {}
    decreases graph.Keys - seen
  {
    if n !in seen && Expands(graph, n) {
      var p :| p in graph[n];
      AncestorsNonEmpty(p, graph, seen + {n});
      var a :| a in Ancestors(p, graph, seen + {n});
      assert a in Ancestors(n, graph, seen);
    }
  }
}
