/** Building the adjacency from an edge list, and the number of undirected edges. */
module AdjacencyBuilder {
  import opened Graphs

  ghost predicate Distinct(s: seq<NodeId>) {
    forall i, j | 0 <= i < j < |s| :: s[i] != s[j]
  }

  ghost predicate Links(edges: seq<Edge>, x: NodeId, y: NodeId) {
    x != y && (Edge(x, y) in edges || Edge(y, x) in edges)
  }

  ghost predicate Mentions(edges: seq<Edge>, x: NodeId) {
    exists e :: e in edges && (x == e.u || x == e.v)
  }

  /** The nodes given, then the endpoints first seen in the edges; neighbours
      exactly as the edges say, whatever their direction, without loops. */
  ghost predicate Built(nodes: seq<NodeId>, edges: seq<Edge>, ids: seq<NodeId>, adj: Adjacency) {
    && nodes <= ids
    && (Distinct(nodes) ==> Distinct(ids))
    && (forall x :: x in ids <==> x in adj)
    && (forall x :: x in adj <==> x in nodes || Mentions(edges, x))
    && (forall x, y | x in adj :: y in adj[x] <==> Links(edges, x, y))
  }

  ghost function Neighbours(adj: Adjacency, x: NodeId): set<NodeId> {
    if x in adj then adj[x] else {}
  }

  method AddNode(ids: seq<NodeId>, adj: Adjacency, x: NodeId) returns (ids': seq<NodeId>, adj': Adjacency)
    requires forall n :: n in ids <==> n in adj
    ensures forall n :: n in ids' <==> n in adj'
    ensures ids <= ids' && (Distinct(ids) ==> Distinct(ids'))
    ensures adj'.Keys == adj.Keys + {x}
    ensures forall n :: Neighbours(adj', n) == Neighbours(adj, n)
  {
    ids', adj' := ids, adj;
    if x !in adj {
      ids', adj' := ids + [x], adj[x := {}];
    }
  }

  function Linked(adj: Adjacency, x: NodeId, y: NodeId): (r: Adjacency)
    requires x in adj
    ensures r.Keys == adj.Keys
    ensures forall n :: Neighbours(r, n) == if n == x then Neighbours(adj, n) + {y} else Neighbours(adj, n)
  {
    adj[x := adj[x] + {y}]
  }

  method AddEdge(ids: seq<NodeId>, adj: Adjacency, e: Edge) returns (ids': seq<NodeId>, adj': Adjacency)
    requires forall n :: n in ids <==> n in adj
    ensures forall n :: n in ids' <==> n in adj'
    ensures ids <= ids' && (Distinct(ids) ==> Distinct(ids'))
    ensures adj'.Keys == adj.Keys + {e.u, e.v}
    ensures forall x, y ::
      y in Neighbours(adj', x) <==>
      y in Neighbours(adj, x) || (x != y && (e == Edge(x, y) || e == Edge(y, x)))
  {
    hide Neighbours, Distinct;
    ids', adj' := AddNode(ids, adj, e.u);
    ids', adj' := AddNode(ids', adj', e.v);
    if e.u != e.v {
      adj' := Linked(Linked(adj', e.u, e.v), e.v, e.u);
    }
    forall x, y
      ensures y in Neighbours(adj', x) <==> y in Neighbours(adj, x) || (x != y && (e == Edge(x, y) || e == Edge(y, x)))
    {
      assert e == Edge(e.u, e.v);
    }
  }

  lemma OneMoreEdge(edges: seq<Edge>, e: Edge)
    ensures forall x :: Mentions(edges + [e], x) <==> Mentions(edges, x) || x in {e.u, e.v}
    ensures forall x, y ::
      Links(edges + [e], x, y) <==>
      Links(edges, x, y) || (x != y && (e == Edge(x, y) || e == Edge(y, x)))
  {
    assert e in edges + [e];
  }

  method BuildAdjacency(nodes: seq<NodeId>, edges: seq<Edge>) returns (ids: seq<NodeId>, adj: Adjacency)
    ensures Built(nodes, edges, ids, adj)
    ensures Simple(adj)
  {
    ids := nodes;
    adj := map n | n in nodes :: {};
    for i := 0 to |edges|
      invariant Built(nodes, edges[..i], ids, adj)
    {
      ghost var before := adj;
      ids, adj := AddEdge(ids, adj, edges[i]);
      OneMoreEdge(edges[..i], edges[i]);
      assert edges[..i + 1] == edges[..i] + [edges[i]];
      forall x, y | x in adj ensures y in adj[x] <==> Links(edges[..i + 1], x, y) {
        assert y in Neighbours(adj, x) <==>
          y in Neighbours(before, x) || (x != y && (edges[i] == Edge(x, y) || edges[i] == Edge(y, x)));
        assert x !in before ==> !Links(edges[..i], x, y) by {
          if Links(edges[..i], x, y) { assert Mentions(edges[..i], x); }
        }
      }
    }
    assert edges[..|edges|] == edges;
    BuiltIsSimple(nodes, edges, ids, adj);
  }

  lemma BuiltIsSimple(nodes: seq<NodeId>, edges: seq<Edge>, ids: seq<NodeId>, adj: Adjacency)
    requires Built(nodes, edges, ids, adj)
    ensures Simple(adj)
  {
    forall u, v | u in adj && v in adj[u] ensures v != u && v in adj && u in adj[v] {
      assert Links(edges, u, v);
      assert Mentions(edges, v);
      assert Links(edges, v, u);
    }
  }

  // ---- edges counted from degrees ----

  ghost function Arcs(adj: Adjacency): set<(NodeId, NodeId)> {
    set u, v | u in adj && v in adj[u] :: (u, v)
  }

  /** The undirected edges, each once. */
  ghost function EdgeSet(adj: Adjacency): set<set<NodeId>> {
    Unordered(Arcs(adj))
  }

  ghost function Unordered(arcs: set<(NodeId, NodeId)>): set<set<NodeId>> {
    set a | a in arcs :: {a.0, a.1}
  }

  function DegreeSum(adj: Adjacency, ids: seq<NodeId>): nat
    requires forall n | n in ids :: n in adj
  {
    if ids == [] then 0 else DegreeSum(adj, ids[..|ids| - 1]) + |adj[ids[|ids| - 1]]|
  }

  ghost function ArcsFrom(adj: Adjacency, ids: seq<NodeId>): set<(NodeId, NodeId)> {
    set u, v | u in ids && u in adj && v in adj[u] :: (u, v)
  }

  lemma {:induction false} DegreeSumIsArcs(adj: Adjacency, ids: seq<NodeId>)
    requires Distinct(ids) && forall n | n in ids :: n in adj
    ensures DegreeSum(adj, ids) == |ArcsFrom(adj, ids)|
  {
    if ids == [] {
      assert ArcsFrom(adj, ids) == {};
    } else {
      var last, front := ids[|ids| - 1], ids[..|ids| - 1];
      assert ids == front + [last];
      DegreeSumIsArcs(adj, front);
      var star := set v | v in adj[last] :: (last, v);
      StarSize(last, adj[last]);
      assert last !in front;
      assert ArcsFrom(adj, ids) == ArcsFrom(adj, front) + star;
      assert ArcsFrom(adj, front) !! star;
    }
  }

  lemma {:induction false} StarSize(u: NodeId, around: set<NodeId>)
    ensures |set v | v in around :: (u, v)| == |around|
  {
    var star := set v | v in around :: (u, v);
    if around == {} {
      assert star == {};
    } else {
      var w :| w in around;
      StarSize(u, around - {w});
      assert star == (set v | v in around - {w} :: (u, v)) + {(u, w)};
    }
  }

  ghost predicate Mirrored(arcs: set<(NodeId, NodeId)>) {
    forall a | a in arcs :: a.0 != a.1 && (a.1, a.0) in arcs
  }

  lemma SamePair(x: NodeId, y: NodeId, u: NodeId, v: NodeId)
    requires {x, y} == {u, v}
    ensures (x == u && y == v) || (x == v && y == u)
  {
    assert x in {u, v} && y in {u, v} && u in {x, y} && v in {x, y};
  }

  lemma PairRemoved(arcs: set<(NodeId, NodeId)>, a: (NodeId, NodeId))
    requires a in arcs
    ensures var rest := arcs - {a, (a.1, a.0)}; var e := {a.0, a.1};
            e !in Unordered(rest) && Unordered(arcs) == Unordered(rest) + {e}
  {
    var b := (a.1, a.0);
    var rest := arcs - {a, b};
    forall c | c in rest ensures {c.0, c.1} != {a.0, a.1} {
      if {c.0, c.1} == {a.0, a.1} {
        SamePair(c.0, c.1, a.0, a.1);
        assert false;
      }
    }
    assert {b.0, b.1} == {a.0, a.1};
    forall e | e in Unordered(arcs) ensures e in Unordered(rest) + {{a.0, a.1}} {
      var c :| c in arcs && e == {c.0, c.1};
    }
  }

  lemma {:induction false} ArcsComeInPairs(arcs: set<(NodeId, NodeId)>)
    requires Mirrored(arcs)
    ensures |arcs| == 2 * |Unordered(arcs)|
    decreases |arcs|
  {
    if arcs == {} {
      assert Unordered(arcs) == {};
    } else {
      var a :| a in arcs;
      var rest := arcs - {a, (a.1, a.0)};
      ArcsComeInPairs(rest);
      PairRemoved(arcs, a);
      assert |arcs - {a}| == |arcs| - 1;
      assert arcs - {a} - {(a.1, a.0)} == rest;
    }
  }

  /** Half the degree sum is the number of undirected edges. */
  lemma DegreesCountEdgesTwice(adj: Adjacency, ids: seq<NodeId>)
    requires Simple(adj) && Distinct(ids) && forall n :: n in ids <==> n in adj
    ensures DegreeSum(adj, ids) == 2 * |EdgeSet(adj)|
  {
    DegreeSumIsArcs(adj, ids);
    assert ArcsFrom(adj, ids) == Arcs(adj);
    assert Mirrored(Arcs(adj));
    ArcsComeInPairs(Arcs(adj));
  }

  method UndirectedEdgeCount(adj: Adjacency, ids: seq<NodeId>) returns (count: nat)
    requires Simple(adj) && Distinct(ids) && forall n :: n in ids <==> n in adj
    ensures count == |EdgeSet(adj)|
  {
    var total := 0;
    for i := 0 to |ids|
      invariant total == DegreeSum(adj, ids[..i])
    {
      assert ids[..i + 1][..i] == ids[..i];
      total := total + |adj[ids[i]]|;
    }
    assert ids[..|ids|] == ids;
    DegreesCountEdgesTwice(adj, ids);
    count := total / 2;
  }
}
