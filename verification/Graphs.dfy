/** Undirected graphs as the structural value profile holds them, with walks, cut
    vertices and bridges: the definitions the graph algorithms are proved against. */
module Graphs {
  datatype NodeId = NodeId(id: string)

  datatype Edge = Edge(u: NodeId, v: NodeId)

  type Adjacency = map<NodeId, set<NodeId>>

  /** What _build_adjacency makes: symmetric, irreflexive, closed. */
  ghost predicate Simple(adj: Adjacency) {
    forall u, v | u in adj && v in adj[u] :: v != u && v in adj && u in adj[v]
  }

  ghost predicate IsWalk(adj: Adjacency, within: set<NodeId>, p: seq<NodeId>) {
    && |p| > 0
    && (forall i | 0 <= i < |p| :: p[i] in within && p[i] in adj)
    && (forall i | 0 <= i < |p| - 1 :: p[i + 1] in adj[p[i]])
  }

  ghost predicate WalkFromTo(adj: Adjacency, within: set<NodeId>, p: seq<NodeId>, a: NodeId, b: NodeId) {
    IsWalk(adj, within, p) && p[0] == a && p[|p| - 1] == b
  }

  /** a and b are connected by a walk that stays inside `within`. */
  ghost predicate Joined(adj: Adjacency, within: set<NodeId>, a: NodeId, b: NodeId) {
    exists p :: WalkFromTo(adj, within, p, a, b)
  }

  /** Removing v separates two other nodes that were connected. */
  ghost predicate IsCut(adj: Adjacency, v: NodeId) {
    exists a, b :: a in adj && b in adj && a != v && b != v
      && Joined(adj, adj.Keys, a, b) && !Joined(adj, adj.Keys - {v}, a, b)
  }

  function WithoutEdge(adj: Adjacency, u: NodeId, v: NodeId): Adjacency {
    map x | x in adj :: if x == u then adj[x] - {v} else if x == v then adj[x] - {u} else adj[x]
  }

  /** Removing the edge u-v disconnects its endpoints. */
  ghost predicate IsBridge(adj: Adjacency, u: NodeId, v: NodeId) {
    u in adj && v in adj[u] && !Joined(WithoutEdge(adj, u, v), adj.Keys, u, v)
  }

  ghost function CutVertices(adj: Adjacency): set<NodeId> {
    set v | v in adj && IsCut(adj, v)
  }

  /** Bridges as unordered pairs, so each edge is counted once. */
  ghost function BridgeEdges(adj: Adjacency): set<set<NodeId>> {
    set u, v | u in adj && v in adj[u] && IsBridge(adj, u, v) :: {u, v}
  }

  // ---- connection is an equivalence inside a set of nodes ----

  lemma JoinedSelf(adj: Adjacency, within: set<NodeId>, a: NodeId)
    requires a in within && a in adj
    ensures Joined(adj, within, a, a)
  {
    assert WalkFromTo(adj, within, [a], a, a);
  }

  lemma JoinedEdge(adj: Adjacency, within: set<NodeId>, a: NodeId, b: NodeId)
    requires a in within && b in within && a in adj && b in adj && b in adj[a]
    ensures Joined(adj, within, a, b)
  {
    assert WalkFromTo(adj, within, [a, b], a, b);
  }

  lemma JoinedTrans(adj: Adjacency, within: set<NodeId>, a: NodeId, b: NodeId, c: NodeId)
    requires Joined(adj, within, a, b) && Joined(adj, within, b, c)
    ensures Joined(adj, within, a, c)
  {
    var p :| WalkFromTo(adj, within, p, a, b);
    var q :| WalkFromTo(adj, within, q, b, c);
    assert WalkFromTo(adj, within, p + q[1..], a, c);
  }

  function Reversed<T>(p: seq<T>): seq<T> {
    seq(|p|, i requires 0 <= i < |p| => p[|p| - 1 - i])
  }

  lemma JoinedSym(adj: Adjacency, within: set<NodeId>, a: NodeId, b: NodeId)
    requires Simple(adj) && Joined(adj, within, a, b)
    ensures Joined(adj, within, b, a)
  {
    var p :| WalkFromTo(adj, within, p, a, b);
    var q := Reversed(p);
    forall i | 0 <= i < |q| - 1 ensures q[i + 1] in adj[q[i]] {
      var j := |p| - 2 - i;
      assert p[j + 1] in adj[p[j]];
    }
    assert WalkFromTo(adj, within, q, b, a);
  }

  lemma JoinedMono(adj: Adjacency, small: set<NodeId>, large: set<NodeId>, a: NodeId, b: NodeId)
    requires small <= large && Joined(adj, small, a, b)
    ensures Joined(adj, large, a, b)
  {
    var p :| WalkFromTo(adj, small, p, a, b);
    assert WalkFromTo(adj, large, p, a, b);
  }

  /** A walk cannot leave a set that is closed under the edges it may use. */
  lemma JoinedStays(adj: Adjacency, within: set<NodeId>, closed: set<NodeId>, a: NodeId, b: NodeId)
    requires Joined(adj, within, a, b) && a in closed
    requires forall u, v | u in closed && u in within && u in adj && v in adj[u] && v in within :: v in closed
    ensures b in closed
  {
    var p :| WalkFromTo(adj, within, p, a, b);
    WalkStays(adj, within, closed, p, |p| - 1);
  }

  lemma {:induction false} WalkStays(adj: Adjacency, within: set<NodeId>, closed: set<NodeId>, p: seq<NodeId>, n: nat)
    requires IsWalk(adj, within, p) && n < |p| && p[0] in closed
    requires forall u, v | u in closed && u in within && u in adj && v in adj[u] && v in within :: v in closed
    ensures p[n] in closed
  {
    if n > 0 {
      WalkStays(adj, within, closed, p, n - 1);
      assert p[n - 1 + 1] in adj[p[n - 1]];
    }
  }

  /** A walk in a set that lacks one endpoint of an edge does not use that edge. */
  lemma JoinedWithoutEdge(adj: Adjacency, within: set<NodeId>, u: NodeId, v: NodeId, a: NodeId, b: NodeId)
    requires Joined(adj, within, a, b) && (u !in within || v !in within)
    ensures Joined(WithoutEdge(adj, u, v), within, a, b)
  {
    var p :| WalkFromTo(adj, within, p, a, b);
    assert WalkFromTo(WithoutEdge(adj, u, v), within, p, a, b);
  }

  lemma SimpleWithoutEdge(adj: Adjacency, u: NodeId, v: NodeId)
    requires Simple(adj)
    ensures Simple(WithoutEdge(adj, u, v))
  {
  }

  lemma BridgeSym(adj: Adjacency, u: NodeId, v: NodeId)
    requires Simple(adj) && IsBridge(adj, u, v)
    ensures IsBridge(adj, v, u)
  {
    assert WithoutEdge(adj, u, v) == WithoutEdge(adj, v, u);
    SimpleWithoutEdge(adj, u, v);
    if Joined(WithoutEdge(adj, u, v), adj.Keys, v, u) {
      JoinedSym(WithoutEdge(adj, u, v), adj.Keys, v, u);
    }
  }

  // ---- criteria ----

  /** If all neighbours of v meet at one node without v, then v is no cut vertex:
      every walk through v can be rerouted. */
  lemma NotCutByHub(adj: Adjacency, v: NodeId, hub: NodeId)
    requires Simple(adj) && v in adj && hub in adj && hub != v
    requires forall y | y in adj[v] :: Joined(adj, adj.Keys - {v}, y, hub)
    ensures !IsCut(adj, v)
  {
    forall a, b | a in adj && b in adj && a != v && b != v && Joined(adj, adj.Keys, a, b)
      ensures Joined(adj, adj.Keys - {v}, a, b)
    {
      var p :| WalkFromTo(adj, adj.Keys, p, a, b);
      Reroute(adj, v, hub, p);
    }
  }

  lemma {:induction false} Reroute(adj: Adjacency, v: NodeId, hub: NodeId, p: seq<NodeId>)
    requires Simple(adj) && v in adj && hub in adj && hub != v
    requires forall y | y in adj[v] :: Joined(adj, adj.Keys - {v}, y, hub)
    requires IsWalk(adj, adj.Keys, p) && p[0] != v && p[|p| - 1] != v
    ensures Joined(adj, adj.Keys - {v}, p[0], p[|p| - 1])
    decreases |p|
  {
    var rest := adj.Keys - {v};
    if |p| == 1 {
      JoinedSelf(adj, rest, p[0]);
    } else if p[1] != v {
      assert p[0 + 1] in adj[p[0]];
      JoinedEdge(adj, rest, p[0], p[1]);
      TailIsWalk(adj, p, 1);
      Reroute(adj, v, hub, p[1..]);
      JoinedTrans(adj, rest, p[0], p[1], p[|p| - 1]);
    } else {
      assert p[0 + 1] in adj[p[0]] && p[1 + 1] in adj[p[1]];
      TailIsWalk(adj, p, 2);
      Reroute(adj, v, hub, p[2..]);
      JoinedSym(adj, rest, p[2], hub);
      JoinedTrans(adj, rest, p[0], hub, p[2]);
      JoinedTrans(adj, rest, p[0], p[2], p[|p| - 1]);
    }
  }

  lemma TailIsWalk(adj: Adjacency, p: seq<NodeId>, n: nat)
    requires IsWalk(adj, adj.Keys, p) && n < |p|
    ensures IsWalk(adj, adj.Keys, p[n..])
  {
    forall i | 0 <= i < |p[n..]| - 1 ensures p[n..][i + 1] in adj[p[n..][i]] {
      assert p[n + i + 1] in adj[p[n + i]];
    }
  }

  /** Two neighbours of v that v's removal separates make v a cut vertex. */
  lemma CutByNeighbours(adj: Adjacency, v: NodeId, a: NodeId, b: NodeId, closed: set<NodeId>)
    requires Simple(adj) && v in adj && a in adj[v] && b in adj[v]
    requires a in closed && b !in closed
    requires forall u, w | u in closed && u in adj && w in adj[u] :: w in closed || w == v
    ensures IsCut(adj, v)
  {
    JoinedEdge(adj, adj.Keys, a, v);
    JoinedEdge(adj, adj.Keys, v, b);
    JoinedTrans(adj, adj.Keys, a, v, b);
    if Joined(adj, adj.Keys - {v}, a, b) {
      JoinedStays(adj, adj.Keys - {v}, closed, a, b);
    }
  }
}
