/** Counting triangles and wedges from pairs of neighbours. */
module Triangles {
  import opened Graphs
  import opened AdjacencyBuilder

  /** A corner: a node with an unordered pair of its neighbours. */
  type Corner = (NodeId, set<NodeId>)

  /** The triangles as sets of three mutually adjacent nodes. */
  ghost function TriangleSet(adj: Adjacency): set<set<NodeId>> {
    set a, b, c | a in adj && b in adj[a] && c in adj[a] && b in adj && c in adj[b] && a != b && a != c && b != c ::
      {a, b, c}
  }

  /** The unordered pairs of distinct neighbours, at every node. */
  ghost function WedgeSet(adj: Adjacency): set<Corner> {
    set v, x, y | v in adj && x in adj[v] && y in adj[v] && x != y :: (v, {x, y})
  }

  /** The wedges whose ends are adjacent: the corners of triangles. */
  ghost function CornerSet(adj: Adjacency): set<Corner> {
    set v, x, y | v in adj && x in adj[v] && y in adj[v] && x != y && x in adj && y in adj[x] :: (v, {x, y})
  }

  // ---- each triangle has three corners ----

  ghost function CornersOf(t: set<NodeId>): set<Corner> {
    set v | v in t :: (v, t - {v})
  }

  ghost function CornersOfAll(ts: set<set<NodeId>>): set<Corner> {
    set t, v | t in ts && v in t :: (v, t - {v})
  }

  lemma {:induction false} ThreeCornersEach(ts: set<set<NodeId>>)
    requires forall t | t in ts :: |t| == 3
    ensures |CornersOfAll(ts)| == 3 * |ts|
  {
    if ts == {} {
      assert CornersOfAll(ts) == {};
    } else {
      var t :| t in ts;
      var rest := ts - {t};
      ThreeCornersEach(rest);
      CornersSize(t, t);
      CornersApart(rest, t);
      assert ts == rest + {t};
    }
  }

  /** A corner belongs to one triangle only. */
  lemma CornersApart(rest: set<set<NodeId>>, t: set<NodeId>)
    requires t !in rest
    ensures CornersOfAll(rest) !! CornersOf(t)
    ensures CornersOfAll(rest + {t}) == CornersOfAll(rest) + CornersOf(t)
  {
    forall k | k in CornersOfAll(rest) ensures k !in CornersOf(t) {
      var u :| u in rest && k.0 in u && k.1 == u - {k.0};
      assert u == k.1 + {k.0};
      assert k in CornersOf(t) ==> t == k.1 + {k.0};
    }
  }

  lemma {:induction false} CornersSize(t: set<NodeId>, part: set<NodeId>)
    requires part <= t
    ensures |set v | v in part :: (v, t - {v})| == |part|
  {
    if part == {} {
      assert (set v | v in part :: (v, t - {v})) == {};
    } else {
      var w :| w in part;
      CornersSize(t, part - {w});
      assert (set v | v in part :: (v, t - {v})) == (set v | v in part - {w} :: (v, t - {v})) + {(w, t - {w})};
    }
  }

  lemma ThreeNodes(a: NodeId, b: NodeId, c: NodeId)
    requires a != b && a != c && b != c
    ensures |{a, b, c}| == 3
    ensures {a, b, c} - {a} == {b, c} && {a, b, c} - {b} == {a, c} && {a, b, c} - {c} == {a, b}
  {
    assert {a, b, c} == {a, b} + {c};
  }

  /** The corners of the triangles are the wedges with adjacent ends. */
  lemma CornersAreTriangles(adj: Adjacency)
    requires Simple(adj)
    ensures CornersOfAll(TriangleSet(adj)) == CornerSet(adj)
  {
    forall k | k in CornersOfAll(TriangleSet(adj)) ensures k in CornerSet(adj) {
      var t :| t in TriangleSet(adj) && k.0 in t && k.1 == t - {k.0};
      var a, b, c :| a in adj && b in adj[a] && c in adj[a] && b in adj && c in adj[b] && a != b && a != c && b != c
        && t == {a, b, c};
      ThreeNodes(a, b, c);
      CornerOfTriangle(adj, a, b, c);
    }
    forall k | k in CornerSet(adj) ensures k in CornersOfAll(TriangleSet(adj)) {
      var v, x, y :| v in adj && x in adj[v] && y in adj[v] && x != y && x in adj && y in adj[x] && k == (v, {x, y});
      assert {v, x, y} in TriangleSet(adj);
      ThreeNodes(v, x, y);
    }
  }

  lemma CornerOfTriangle(adj: Adjacency, a: NodeId, b: NodeId, c: NodeId)
    requires Simple(adj) && a in adj && b in adj[a] && c in adj[a] && b in adj && c in adj[b] && a != b && a != c
    requires b != c
    ensures (a, {b, c}) in CornerSet(adj) && (b, {a, c}) in CornerSet(adj) && (c, {a, b}) in CornerSet(adj)
  {
    assert a in adj[b] && a in adj[c] && b in adj[c];
  }

  /** The neighbour-pair loop sees every triangle exactly three times. */
  lemma CornersCountTriples(adj: Adjacency)
    requires Simple(adj)
    ensures |CornerSet(adj)| == 3 * |TriangleSet(adj)|
  {
    CornersAreTriangles(adj);
    forall t | t in TriangleSet(adj) ensures |t| == 3 {
      var a, b, c :| a in adj && b in adj[a] && c in adj[a] && b in adj && c in adj[b] && a != b && a != c && b != c
        && t == {a, b, c};
      ThreeNodes(a, b, c);
    }
    ThreeCornersEach(TriangleSet(adj));
  }

  lemma {:induction false} Subsets<T>(a: set<T>, b: set<T>)
    requires a <= b
    ensures |a| <= |b|
  {
    assert b == a + (b - a);
  }

  /** Three times the triangles never exceeds the wedges. */
  lemma TrianglesWithinWedges(adj: Adjacency)
    requires Simple(adj)
    ensures 3 * |TriangleSet(adj)| <= |WedgeSet(adj)|
  {
    CornersCountTriples(adj);
    forall k | k in CornerSet(adj) ensures k in WedgeSet(adj) {}
    Subsets(CornerSet(adj), WedgeSet(adj));
  }

  // ---- d(d-1)/2 pairs at a node of degree d ----

  ghost function PairsOf(v: NodeId, around: set<NodeId>): set<Corner> {
    set x, y | x in around && y in around && x != y :: (v, {x, y})
  }

  ghost function WithOne(v: NodeId, w: NodeId, others: set<NodeId>): set<Corner> {
    set x | x in others :: (v, {w, x})
  }

  lemma {:induction false} WithOneSize(v: NodeId, w: NodeId, others: set<NodeId>)
    requires w !in others
    ensures |WithOne(v, w, others)| == |others|
  {
    if others == {} {
      assert WithOne(v, w, others) == {};
    } else {
      var x :| x in others;
      WithOneSize(v, w, others - {x});
      assert WithOne(v, w, others) == WithOne(v, w, others - {x}) + {(v, {w, x})};
      forall z | z in others - {x} ensures {w, z} != {w, x} { assert z !in {w, x}; }
    }
  }

  ghost function Choose2(d: nat): nat {
    if d == 0 then 0 else Choose2(d - 1) + d - 1
  }

  lemma {:induction false} Choose2Closed(d: nat)
    ensures d * (d - 1) / 2 == Choose2(d)
  {
    if d > 0 {
      Choose2Closed(d - 1);
      assert d * (d - 1) == (d - 1) * (d - 2) + 2 * (d - 1);
    }
  }

  lemma {:induction false} PairsOfSize(v: NodeId, around: set<NodeId>)
    ensures |PairsOf(v, around)| == Choose2(|around|)
  {
    hide PairsOf, WithOne;
    if around == {} {
      NoPairs(v);
    } else {
      var w :| w in around;
      var others := around - {w};
      PairsOfSize(v, others);
      WithOneSize(v, w, others);
      PairsSplit(v, w, others);
      assert others + {w} == around && |around| == |others| + 1;
    }
  }

  lemma NoPairs(v: NodeId)
    ensures PairsOf(v, {}) == {}
  {
  }

  lemma PairsSplit(v: NodeId, w: NodeId, others: set<NodeId>)
    requires w !in others
    ensures PairsOf(v, others + {w}) == PairsOf(v, others) + WithOne(v, w, others)
    ensures PairsOf(v, others) !! WithOne(v, w, others)
  {
    forall x, y | x in others + {w} && y in others + {w} && x != y
      ensures (v, {x, y}) in PairsOf(v, others) + WithOne(v, w, others)
    {
      if x == w { assert {x, y} == {w, y}; }
      if y == w { assert {x, y} == {w, x}; }
    }
    forall k | k in WithOne(v, w, others) ensures w in k.1 {}
    forall k | k in PairsOf(v, others) ensures w !in k.1 {}
  }

  // ---- the loops ----

  ghost predicate SameElements(s: seq<NodeId>, a: set<NodeId>) {
    Distinct(s) && forall x :: x in s <==> x in a
  }

  /** The elements of a set in some order. */
  method Listed(a: set<NodeId>) returns (s: seq<NodeId>)
    ensures SameElements(s, a)
    ensures |s| == |a|
  {
    s := [];
    var rest := a;
    while rest != {}
      invariant rest <= a && SameElements(s, a - rest) && |s| == |a| - |rest|
      decreases rest
    {
      var x: NodeId :| x in rest;
      s, rest := s + [x], rest - {x};
    }
    assert a - rest == a;
  }

  /** The corners at v whose first listed end is before position i, or is i with the other before j. */
  ghost function Seen(adj: Adjacency, v: NodeId, nb: seq<NodeId>, i: int, j: int): set<Corner> {
    set p, q | 0 <= p < q < |nb| && (p < i || (p == i && q < j)) && nb[p] in adj && nb[q] in adj[nb[p]] ::
      (v, {nb[p], nb[q]})
  }

  lemma SeenStep(adj: Adjacency, v: NodeId, nb: seq<NodeId>, i: int, j: int)
    requires Distinct(nb) && 0 <= i < j < |nb|
    ensures Seen(adj, v, nb, i, j + 1)
      == Seen(adj, v, nb, i, j) + if nb[i] in adj && nb[j] in adj[nb[i]] then {(v, {nb[i], nb[j]})} else {}
    ensures (v, {nb[i], nb[j]}) !in Seen(adj, v, nb, i, j)
  {
    forall p, q | 0 <= p < q < |nb| && {nb[p], nb[q]} == {nb[i], nb[j]} ensures p == i && q == j {
      SamePair(nb[p], nb[q], nb[i], nb[j]);
    }
  }

  lemma SeenRow(adj: Adjacency, v: NodeId, nb: seq<NodeId>, i: int)
    requires 0 <= i < |nb|
    ensures Seen(adj, v, nb, i, |nb|) == Seen(adj, v, nb, i + 1, 0)
    ensures Seen(adj, v, nb, i, i + 1) == Seen(adj, v, nb, i, 0)
  {
  }

  lemma SeenNone(adj: Adjacency, v: NodeId, nb: seq<NodeId>)
    ensures Seen(adj, v, nb, 0, 0) == {}
  {
  }

  ghost function CornersAt(adj: Adjacency, v: NodeId): set<Corner>
    requires v in adj
  {
    set x, y | x in adj[v] && y in adj[v] && x != y && x in adj && y in adj[x] :: (v, {x, y})
  }

  lemma SeenAll(adj: Adjacency, v: NodeId, nb: seq<NodeId>)
    requires Simple(adj) && v in adj && SameElements(nb, adj[v])
    ensures Seen(adj, v, nb, |nb|, 0) == CornersAt(adj, v)
  {
    forall x, y | x in adj[v] && y in adj[v] && x != y && x in adj && y in adj[x]
      ensures (v, {x, y}) in Seen(adj, v, nb, |nb|, 0)
    {
      var p :| 0 <= p < |nb| && nb[p] == x;
      var q :| 0 <= q < |nb| && nb[q] == y;
      if q < p {
        assert x in adj[y] && {x, y} == {nb[q], nb[p]};
      }
    }
  }

  /** The inner two loops at one node. */
  method CountAt(adj: Adjacency, v: NodeId) returns (count: nat)
    requires Simple(adj) && v in adj
    ensures count == |CornersAt(adj, v)|
  {
    hide Seen, CornersAt;
    var nb := Listed(adj[v]);
    count := 0;
    SeenNone(adj, v, nb);
    for i := 0 to |nb|
      invariant count == |Seen(adj, v, nb, i, 0)|
    {
      SeenRow(adj, v, nb, i);
      assert nb[i] in nb && nb[i] in adj[v];
      for j := i + 1 to |nb|
        invariant count == |Seen(adj, v, nb, i, j)|
      {
        SeenStep(adj, v, nb, i, j);
        if nb[j] in adj[nb[i]] {
          count := count + 1;
        }
      }
    }
    SeenAll(adj, v, nb);
  }

  ghost function CornersIn(adj: Adjacency, nodes: seq<NodeId>): set<Corner> {
    set k | k in CornerSet(adj) && k.0 in nodes
  }

  ghost function WedgesIn(adj: Adjacency, nodes: seq<NodeId>): set<Corner> {
    set k | k in WedgeSet(adj) && k.0 in nodes
  }

  lemma OneMoreNode(adj: Adjacency, nodes: seq<NodeId>, i: int)
    requires Distinct(nodes) && 0 <= i < |nodes| && nodes[i] in adj
    ensures |CornersIn(adj, nodes[..i + 1])| == |CornersIn(adj, nodes[..i])| + |CornersAt(adj, nodes[i])|
    ensures |WedgesIn(adj, nodes[..i + 1])| == |WedgesIn(adj, nodes[..i])| + |PairsOf(nodes[i], adj[nodes[i]])|
  {
    var v := nodes[i];
    assert nodes[..i + 1] == nodes[..i] + [v] && v !in nodes[..i];
    assert CornersIn(adj, nodes[..i + 1]) == CornersIn(adj, nodes[..i]) + CornersAt(adj, v);
    assert CornersIn(adj, nodes[..i]) !! CornersAt(adj, v);
    assert WedgesIn(adj, nodes[..i + 1]) == WedgesIn(adj, nodes[..i]) + PairsOf(v, adj[v]);
    assert WedgesIn(adj, nodes[..i]) !! PairsOf(v, adj[v]);
  }

  method TrianglesAndWedges(nodes: seq<NodeId>, adj: Adjacency) returns (triangles: nat, wedges: nat)
    requires Simple(adj) && Distinct(nodes) && forall n :: n in nodes <==> n in adj
    ensures triangles == |TriangleSet(adj)|
    ensures wedges == |WedgeSet(adj)|
  {
    var counted := 0;
    wedges := 0;
    for k := 0 to |nodes|
      invariant counted == |CornersIn(adj, nodes[..k])|
      invariant wedges == |WedgesIn(adj, nodes[..k])|
    {
      var v := nodes[k];
      assert v in nodes;
      OneMoreNode(adj, nodes, k);
      var d := |adj[v]|;
      PairsOfSize(v, adj[v]);
      Choose2Closed(d);
      wedges := wedges + d * (d - 1) / 2;
      var here := CountAt(adj, v);
      counted := counted + here;
    }
    assert nodes[..|nodes|] == nodes;
    assert CornersIn(adj, nodes) == CornerSet(adj);
    assert WedgesIn(adj, nodes) == WedgeSet(adj);
    CornersCountTriples(adj);
    triangles := counted / 3;
  }
}
