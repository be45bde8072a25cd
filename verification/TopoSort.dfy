/** The build order of AUR packages: a tricolor depth-first post-order (`_topo_sort`). */
module TopoSort {
  import opened Common

  type Graph = map<string, seq<string>>

  datatype Color = White | Grey | Black

  datatype Result = Ok | Cycle(path: seq<string>)

  function Deps(g: Graph, n: string): seq<string> {
    if n in g then g[n] else []
  }

  /** Every package the graph mentions. */
  function Nodes(g: Graph): (s: set<string>)
    ensures g.Keys <= s
    ensures forall n, d :: n in g && d in g[n] ==> d in s
  {
    g.Keys + set n, d | n in g && d in g[n] :: d
  }

  predicate Closed(g: Graph) {
    forall n, d :: n in g && d in g[n] ==> d in g
  }

  // ---------------------------------------------------------------- walks and orders

  ghost predicate IsWalk(g: Graph, p: seq<string>) {
    && p != []
    && forall i :: 0 <= i < |p| - 1 ==> p[i + 1] in Deps(g, p[i])
  }

  ghost predicate Cyclic(g: Graph) {
    exists p :: IsWalk(g, p) && |p| > 1 && p[0] == p[|p| - 1]
  }

  /** Every dependency comes before its dependents. */
  predicate DepsFirst(g: Graph, order: seq<string>) {
    forall i, d :: 0 <= i < |order| && d in Deps(g, order[i]) ==> d in order[..i]
  }

  ghost predicate IsBuildOrder(g: Graph, order: seq<string>) {
    && NoRepeats(order)
    && DepsFirst(g, order)
    && forall n :: n in order <==> n in Nodes(g)
  }

  lemma WalkFrom(g: Graph, p: seq<string>, i: nat)
    requires IsWalk(g, p) && i < |p|
    ensures IsWalk(g, p[i..])
  {
    var c := p[i..];
    forall k | 0 <= k < |c| - 1
      ensures c[k + 1] in Deps(g, c[k])
    {
      assert p[(i + k) + 1] in Deps(g, p[i + k]);
    }
  }

  /** Along a walk the positions in a build order only go down. */
  lemma {:induction false} WalkGoesDown(g: Graph, order: seq<string>, p: seq<string>, at: nat) returns (end: nat)
    requires IsBuildOrder(g, order) && IsWalk(g, p)
    requires at < |order| && order[at] == p[0]
    ensures end < |order| && order[end] == p[|p| - 1]
    ensures end <= at && (|p| > 1 ==> end < at)
    decreases |p|
  {
    if |p| == 1 {
      end := at;
    } else {
      assert p[1] in order[..at];
      var next :| 0 <= next < at && order[next] == p[1];
      WalkFrom(g, p, 1);
      end := WalkGoesDown(g, order, p[1..], next);
    }
  }

  lemma OrderedIsAcyclic(g: Graph, order: seq<string>)
    requires IsBuildOrder(g, order)
    ensures !Cyclic(g)
  {
    forall p | IsWalk(g, p) && |p| > 1
      ensures p[0] != p[|p| - 1]
    {
      assert p[1] in Deps(g, p[0]);
      assert p[0] in order;
      var at :| 0 <= at < |order| && order[at] == p[0];
      var end := WalkGoesDown(g, order, p, at);
    }
  }

  /** A walk that comes back to where it has been holds a cycle. */
  lemma ReturningWalk(g: Graph, p: seq<string>)
    requires IsWalk(g, p) && p[|p| - 1] in p[..|p| - 1]
    ensures Cyclic(g)
  {
    var i :| 0 <= i < |p| - 1 && p[i] == p[|p| - 1];
    var c := p[i..];
    WalkFrom(g, p, i);
    assert c[0] == c[|c| - 1];
  }

  lemma WalkSnoc(g: Graph, p: seq<string>, n: string)
    requires IsWalk(g, p) && n in Deps(g, p[|p| - 1])
    ensures IsWalk(g, p + [n])
  {
    var q := p + [n];
    forall i | 0 <= i < |q| - 1
      ensures q[i + 1] in Deps(g, q[i])
    {
      if i < |p| - 1 {
        assert q[i] == p[i] && q[i + 1] == p[i + 1];
      } else {
        assert q[i] == p[|p| - 1] && q[i + 1] == n;
      }
    }
  }

  // ---------------------------------------------------------------- the search

  type Colors = map<string, Color>

  /** `color.get(n, WHITE)`. */
  function ColorOf(color: Colors, n: string): Color {
    if n in color then color[n] else White
  }

  ghost function Whites(g: Graph, color: Colors): set<string> {
    set n | n in Nodes(g) && ColorOf(color, n) == White
  }

  /** Grey is what is being visited, black is what is ordered. */
  ghost predicate Consistent(g: Graph, color: Colors, order: seq<string>, path: seq<string>) {
    && (forall n :: ColorOf(color, n) == Grey <==> n in path)
    && (forall n :: ColorOf(color, n) == Black <==> n in order)
    && (forall n :: n in order ==> n in Nodes(g))
    && NoRepeats(order)
    && DepsFirst(g, order)
  }

  lemma Entered(g: Graph, color: Colors, order: seq<string>, stack: seq<string>, n: string)
    requires Consistent(g, color, order, stack)
    requires n in Nodes(g) && ColorOf(color, n) == White
    ensures Consistent(g, color[n := Grey], order, stack + [n])
    ensures Whites(g, color[n := Grey]) == Whites(g, color) - {n}
  {
    var after := color[n := Grey];
    forall m
      ensures ColorOf(after, m) == Grey <==> m in stack + [n]
      ensures ColorOf(after, m) == Black <==> m in order
    {
    }
  }

  lemma Left(g: Graph, color: Colors, order: seq<string>, stack: seq<string>, n: string)
    requires Consistent(g, color, order, stack + [n])
    requires n in Nodes(g) && n !in stack
    requires forall d :: d in Deps(g, n) ==> d in order
    ensures Consistent(g, color[n := Black], order + [n], stack)
    ensures Whites(g, color[n := Black]) == Whites(g, color)
  {
    var after := color[n := Black];
    assert (stack + [n])[|stack|] == n;
    assert ColorOf(color, n) == Grey;
    forall m
      ensures ColorOf(after, m) == Grey <==> m in stack
      ensures ColorOf(after, m) == Black <==> m in order + [n]
    {
      assert m in stack + [n] <==> m in stack || m == n;
    }
    forall i, d | 0 <= i < |order| + 1 && d in Deps(g, (order + [n])[i])
      ensures d in (order + [n])[..i]
    {
      if i < |order| {
        assert (order + [n])[..i] == order[..i];
      } else {
        assert (order + [n])[..i] == order;
      }
    }
  }

  class Sorter {
    const graph: Graph
    var color: Colors
    var order: seq<string>

    constructor (graph: Graph)
      ensures this.graph == graph && order == []
      ensures Consistent(graph, color, [], [])
      ensures Whites(graph, color) == Nodes(graph)
    {
      this.graph := graph;
      color := map n | n in graph :: White;
      order := [];
    }

    /** `visit`: orders `n` and all it needs, or reports a walk back into the current path. */
    method Visit(n: string, stack: seq<string>) returns (r: Result)
      requires Consistent(graph, color, order, stack)
      requires n in Nodes(graph) && ColorOf(color, n) == White
      requires IsWalk(graph, stack + [n])
      modifies this`color, this`order
      ensures r.Ok? ==> Consistent(graph, color, order, stack)
      ensures r.Ok? ==> n in order && old(order) <= order
      ensures r.Ok? ==> Whites(graph, color) <= old(Whites(graph, color)) - {n}
      ensures r.Cycle? ==> IsWalk(graph, r.path) && r.path[|r.path| - 1] in r.path[..|r.path| - 1]
      decreases Whites(graph, color)
    {
      var path := stack + [n];
      ghost var whites := Whites(graph, color);
      Entered(graph, color, order, stack, n);
      color := color[n := Grey];
      var deps := Deps(graph, n);
      for i := 0 to |deps|
        invariant Consistent(graph, color, order, path)
        invariant old(order) <= order
        invariant Whites(graph, color) <= whites - {n}
        invariant forall j :: 0 <= j < i ==> deps[j] in order
      {
        var dep := deps[i];
        WalkSnoc(graph, path, dep);
        if ColorOf(color, dep) == Grey {
          assert (path + [dep])[..|path|] == path;
          return Cycle(path + [dep]);
        }
        if ColorOf(color, dep) == White {
          assert n !in Whites(graph, color) && n in whites;
          var sub := Visit(dep, path);
          if sub.Cycle? {
            return sub;
          }
        }
      }
      Left(graph, color, order, stack, n);
      color := color[n := Black];
      order := order + [n];
      return Ok;
    }

    /** `_topo_sort`: a build order if there is one, else a cycle. */
    method Sort() returns (r: Result)
      requires Consistent(graph, color, order, [])
      modifies this`color, this`order
      ensures r.Ok? ==> IsBuildOrder(graph, order)
      ensures r.Cycle? ==> IsWalk(graph, r.path) && r.path[|r.path| - 1] in r.path[..|r.path| - 1]
      ensures r.Cycle? <==> Cyclic(graph)
    {
      var todo := graph.Keys;
      while todo != {}
        invariant todo <= graph.Keys
        invariant Consistent(graph, color, order, [])
        invariant forall n :: n in graph && n !in todo ==> n in order
        decreases todo
      {
        var n :| n in todo;
        todo := todo - {n};
        if ColorOf(color, n) == White {
          assert [] + [n] == [n];
          var sub := Visit(n, []);
          if sub.Cycle? {
            ReturningWalk(graph, sub.path);
            return sub;
          }
        }
      }
      AllOrdered(graph, order);
      OrderedIsAcyclic(graph, order);
      return Ok;
    }
  }

  /** Ordering every key of the graph orders every package it mentions. */
  lemma AllOrdered(g: Graph, order: seq<string>)
    requires DepsFirst(g, order) && forall n :: n in g ==> n in order
    ensures forall n :: n in Nodes(g) ==> n in order
  {
    forall n | n in Nodes(g) && n !in g
      ensures n in order
    {
      var m, d :| m in g && d in g[m] && d == n;
      var i :| 0 <= i < |order| && order[i] == m;
      assert n in Deps(g, order[i]);
      assert n in order[..i];
    }
  }
}
