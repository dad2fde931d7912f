/** Searching the wait-for graph for a cycle through one transaction, and choosing the victim (src/database.rs). */
module DeadlockSearch {
  import opened Options

  type Tx = nat
  type Graph = map<Tx, seq<Tx>>

  predicate Edge(g: Graph, a: Tx, b: Tx) {
    a in g && b in g[a]
  }

  /** Each node waits for the next one. */
  ghost predicate Walk(g: Graph, w: seq<Tx>) {
    forall i, j :: 0 <= i < j < |w| && j == i + 1 ==> Edge(g, w[i], w[j])
  }

  ghost predicate Simple(w: seq<Tx>) {
    forall i, j :: 0 <= i < j < |w| ==> w[i] != w[j]
  }

  /** A round trip through `start`, which may pass through a node more than once. */
  ghost predicate RoundTrip(g: Graph, start: Tx, w: seq<Tx>) {
    w != [] && w[0] == start && Walk(g, w) && Edge(g, w[|w|-1], start)
  }

  /** No way leads from the end of `path` back to `start` without meeting the path again. */
  ghost predicate DeadEnd(g: Graph, start: Tx, path: seq<Tx>) {
    forall w :: path <= w && w != [] && Walk(g, w) && Simple(w) ==> !Edge(g, w[|w|-1], start)
  }

  /** The nodes that have or are waited for. */
  ghost function Nodes(g: Graph): set<Tx> {
    g.Keys + set a, b | a in g && b in g[a] :: b
  }

  class Search {
    const graph: Graph
    const start: Tx
    var path: seq<Tx>
    var onPath: set<Tx>

    ghost predicate Valid()
      reads this
    {
      && path != [] && path[0] == start
      && Walk(graph, path) && Simple(path)
      && onPath == set x | x in path
    }

    constructor (graph: Graph, start: Tx)
      ensures Valid() && path == [start] && this.graph == graph && this.start == start
    {
      this.graph, this.start := graph, start;
      path, onPath := [start], {start};
    }

    /** Tries every neighbour that is not on the path, and takes it off again if it leads nowhere. */
    method Dfs(node: Tx) returns (cycle: Option<seq<Tx>>)
      requires Valid() && node == path[|path|-1]
      modifies this
      ensures cycle.Some? ==> RoundTrip(graph, start, cycle.value) && Simple(cycle.value)
      ensures cycle.None? ==> Valid() && path == old(path) && onPath == old(onPath) && DeadEnd(graph, start, path)
      decreases Nodes(graph) - onPath
    {
      hide Walk, Simple, DeadEnd;
      if node !in graph {
        NoWay(graph, start, path);
        return None;
      }
      var neighbors := graph[node];
      var i := 0;
      while i < |neighbors|
        invariant i <= |neighbors| && Valid() && path == old(path) && onPath == old(onPath)
        invariant forall k :: 0 <= k < i ==> neighbors[k] != start
        invariant forall k :: 0 <= k < i ==> neighbors[k] in path || DeadEnd(graph, start, path + [neighbors[k]])
      {
        var next := neighbors[i];
        if next == start {
          return Some(path);
        }
        if next !in onPath {
          Longer(graph, path, next);
          onPath := onPath + {next};
          path := path + [next];
          cycle := Dfs(next);
          if cycle.Some? {
            return;
          }
          assert path[..|path|-1] == old(path);
          path := path[..|path|-1];
          onPath := onPath - {next};
        }
        i := i + 1;
      }
      AllTried(graph, start, path, neighbors);
      cycle := None;
    }
  }

  lemma Longer(g: Graph, path: seq<Tx>, next: Tx)
    requires path != [] && Walk(g, path) && Simple(path) && Edge(g, path[|path|-1], next) && next !in path
    ensures Walk(g, path + [next]) && Simple(path + [next]) && next in Nodes(g)
  {
    var w := path + [next];
    forall i, j | 0 <= i < j < |w| && j == i + 1 ensures Edge(g, w[i], w[j]) {
      if j < |path| { assert Edge(g, path[i], path[j]); }
    }
  }

  lemma NoWay(g: Graph, start: Tx, path: seq<Tx>)
    requires path != [] && path[|path|-1] !in g
    ensures DeadEnd(g, start, path)
  {
    forall w | path <= w && Walk(g, w) && w != [] ensures !Edge(g, w[|w|-1], start) {
      assert w[|path|-1] == path[|path|-1];
      assert |w| > |path| ==> Edge(g, w[|path|-1], w[|path|]);
      assert w == path;
    }
  }

  /** With every neighbour a dead end, the path is one. */
  lemma AllTried(g: Graph, start: Tx, path: seq<Tx>, neighbors: seq<Tx>)
    requires path != [] && path[|path|-1] in g && neighbors == g[path[|path|-1]]
    requires forall k :: 0 <= k < |neighbors| ==> neighbors[k] != start
    requires forall k :: 0 <= k < |neighbors| ==> neighbors[k] in path || DeadEnd(g, start, path + [neighbors[k]])
    ensures DeadEnd(g, start, path)
  {
    hide DeadEnd;
    forall w | path <= w && Walk(g, w) && Simple(w) && w != [] ensures !Edge(g, w[|w|-1], start) {
      if |w| > |path| {
        var next := w[|path|];
        assert Edge(g, w[|path|-1], next);
        var k :| 0 <= k < |neighbors| && neighbors[k] == next;
        assert next !in path by { NotOnPath(path, w); }
        assert w[..|path|+1] == path + [next];
        UseDeadEnd(g, start, path + [next], w);
      } else {
        assert w == path;
      }
    }
    IsDeadEnd(g, start, path);
  }

  lemma NotOnPath(path: seq<Tx>, w: seq<Tx>)
    requires path <= w && |path| < |w| && Simple(w)
    ensures w[|path|] !in path
  {
    forall i | 0 <= i < |path| ensures path[i] != w[|path|] {
      assert path[i] == w[i];
    }
  }

  lemma UseDeadEnd(g: Graph, start: Tx, path: seq<Tx>, w: seq<Tx>)
    requires DeadEnd(g, start, path) && path <= w && w != [] && Walk(g, w) && Simple(w)
    ensures !Edge(g, w[|w|-1], start)
  {
  }

  lemma IsDeadEnd(g: Graph, start: Tx, path: seq<Tx>)
    requires forall w :: path <= w && w != [] && Walk(g, w) && Simple(w) ==> !Edge(g, w[|w|-1], start)
    ensures DeadEnd(g, start, path)
  {
  }

  /** A round trip that meets a node twice can be cut short; what is left at last is simple. */
  lemma {:induction false} CutShort(g: Graph, start: Tx, w: seq<Tx>) returns (c: seq<Tx>)
    requires RoundTrip(g, start, w)
    ensures RoundTrip(g, start, c) && Simple(c)
    decreases |w|
  {
    if Simple(w) {
      c := w;
    } else {
      var i, j :| 0 <= i < j < |w| && w[i] == w[j];
      var w' := w[..i] + w[j..];
      forall a, b | 0 <= a < b < |w'| && b == a + 1 ensures Edge(g, w'[a], w'[b]) {
        if b < i {
          assert Edge(g, w[a], w[b]);
        } else if a >= i {
          assert Edge(g, w[a - i + j], w[b - i + j]);
        } else {
          assert Edge(g, w[a], w[i]) && w'[b] == w[j];
        }
      }
      c := CutShort(g, start, w');
    }
  }

  /** `find_cycle_containing`: a simple cycle through `start` if, and only if, any round trip through it exists. */
  method FindCycleContaining(g: Graph, start: Tx) returns (cycle: Option<seq<Tx>>)
    ensures cycle.Some? ==> RoundTrip(g, start, cycle.value) && Simple(cycle.value)
    ensures cycle.Some? <==> exists w :: RoundTrip(g, start, w)
  {
    hide Walk, Simple, DeadEnd;
    var search := new Search(g, start);
    cycle := search.Dfs(start);
    if cycle.None? {
      forall w ensures !RoundTrip(g, start, w) {
        if RoundTrip(g, start, w) {
          var c := CutShort(g, start, w);
          assert [start] <= c;
          UseDeadEnd(g, start, [start], c);
          assert false;
        }
      }
    }
  }

  /** The youngest transaction of a cycle. */
  method Youngest(cycle: seq<Tx>) returns (victim: Tx)
    requires cycle != []
    ensures victim in cycle && forall t :: t in cycle ==> t <= victim
  {
    victim := cycle[0];
    var i := 1;
    while i < |cycle|
      invariant 1 <= i <= |cycle| && victim in cycle[..i] && forall t :: t in cycle[..i] ==> t <= victim
    {
      if cycle[i] >= victim {
        victim := cycle[i];
      }
      assert cycle[..i+1] == cycle[..i] + [cycle[i]];
      i := i + 1;
    }
    assert cycle[..|cycle|] == cycle;
  }

  ghost predicate GraphOf(g: Graph, edges: seq<(Tx, Tx)>) {
    forall a: Tx, b: Tx :: Edge(g, a, b) <==> (a, b) in edges
  }

  /** The wait-for graph of a list of edges. */
  method AdjacencyOf(edges: seq<(Tx, Tx)>) returns (g: Graph)
    ensures GraphOf(g, edges)
  {
    g := map[];
    var i := 0;
    while i < |edges|
      invariant i <= |edges| && GraphOf(g, edges[..i])
    {
      var (waiter, holder) := edges[i];
      var neighbors := if waiter in g then g[waiter] else [];
      ghost var g0 := g;
      g := g[waiter := neighbors + [holder]];
      OneEdge(g0, g, waiter, holder, neighbors);
      assert edges[..i+1] == edges[..i] + [(waiter, holder)];
      i := i + 1;
    }
    assert edges[..|edges|] == edges;
  }

  lemma OneEdge(g: Graph, g': Graph, waiter: Tx, holder: Tx, neighbors: seq<Tx>)
    requires neighbors == (if waiter in g then g[waiter] else []) && g' == g[waiter := neighbors + [holder]]
    ensures forall a, b :: Edge(g', a, b) <==> Edge(g, a, b) || (a == waiter && b == holder)
  {
  }

  /** What is left of the edges when a transaction is aborted: its locks and its requests are gone. */
  function Without(edges: seq<(Tx, Tx)>, victim: Tx): (left: seq<(Tx, Tx)>)
    ensures forall e :: e in left <==> e in edges && e.0 != victim && e.1 != victim
  {
    if edges == [] then []
    else
      var e := edges[|edges|-1];
      var left := Without(edges[..|edges|-1], victim);
      assert edges == edges[..|edges|-1] + [e];
      if e.0 == victim || e.1 == victim then left else left + [e]
  }

  ghost predicate DeadlockThrough(edges: seq<(Tx, Tx)>, t: Tx) {
    exists g: Graph, w :: GraphOf(g, edges) && RoundTrip(g, t, w)
  }

  /** `detect_deadlock`: a victim exactly if the owner is deadlocked. The victim is the youngest of a cycle through
      the owner; once it is aborted, no cycle passes through it any more, and the cycle found is broken. */
  method DetectDeadlock(edges: seq<(Tx, Tx)>, owner: Tx) returns (victim: Option<Tx>, ghost cycle: seq<Tx>)
    ensures victim.Some? <==> DeadlockThrough(edges, owner)
    ensures victim.Some? ==> Simple(cycle) && owner in cycle && victim.value in cycle && forall t :: t in cycle ==>
      t <= victim.value
    ensures victim.Some? ==> forall i :: 0 <= i < |cycle| ==>
      (cycle[i], cycle[if i + 1 < |cycle| then i + 1 else 0]) in edges
    ensures victim.Some? ==> !DeadlockThrough(Without(edges, victim.value), victim.value)
    ensures victim.Some? ==> exists i ::
      0 <= i < |cycle| && (cycle[i], cycle[if i + 1 < |cycle| then i + 1 else 0]) !in Without(edges, victim.value)
  {
    hide Simple, Without;
    var g := AdjacencyOf(edges);
    var found := FindCycleContaining(g, owner);
    SameEdges(g, edges, owner);
    cycle := [];
    if found.None? {
      return None, cycle;
    }
    cycle := found.value;
    var v := Youngest(found.value);
    Broken(edges, v, cycle);
    forall i | 0 <= i < |cycle| ensures (cycle[i], cycle[if i + 1 < |cycle| then i + 1 else 0]) in edges {
      assert Edge(g, cycle[i], cycle[if i + 1 < |cycle| then i + 1 else 0]);
    }
    victim := Some(v);
  }

  lemma Broken(edges: seq<(Tx, Tx)>, victim: Tx, cycle: seq<Tx>)
    requires victim in cycle
    ensures !DeadlockThrough(Without(edges, victim), victim)
    ensures exists i ::
      0 <= i < |cycle| && (cycle[i], cycle[if i + 1 < |cycle| then i + 1 else 0]) !in Without(edges, victim)
  {
    hide Without;
    var left := Without(edges, victim);
    forall g: Graph, w | GraphOf(g, left) ensures !RoundTrip(g, victim, w) {
      if w != [] {
        assert (w[|w|-1], victim) !in left;
      }
    }
    var i :| 0 <= i < |cycle| && cycle[i] == victim;
    assert (cycle[i], cycle[if i + 1 < |cycle| then i + 1 else 0]) !in left;
  }

  /** The order in which edges are stored does not matter. */
  lemma SameEdges(g: Graph, edges: seq<(Tx, Tx)>, t: Tx)
    requires GraphOf(g, edges)
    ensures DeadlockThrough(edges, t) <==> exists w :: RoundTrip(g, t, w)
  {
    forall h: Graph, w | GraphOf(h, edges) && RoundTrip(h, t, w) ensures RoundTrip(g, t, w) {
      forall i, j | 0 <= i < j < |w| && j == i + 1 ensures Edge(g, w[i], w[j]) {
        assert Edge(h, w[i], w[j]);
      }
    }
  }
}
