/** Connected components by breadth-first search, in decreasing size. */
module Components {
  import opened Graphs
  import opened AdjacencyBuilder

  type Component = seq<NodeId>

  /** The nodes of c, each once, are exactly one class of "connected to". */
  ghost predicate MaximalConnected(adj: Adjacency, c: Component) {
    && c != []
    && Distinct(c)
    && (forall x, y | x in c :: x in adj && (y in c <==> Joined(adj, adj.Keys, x, y)))
  }

  ghost predicate Covered(comps: seq<Component>, x: NodeId) {
    exists i :: 0 <= i < |comps| && x in comps[i]
  }

  ghost predicate Disjoint(comps: seq<Component>) {
    forall i, j, x | 0 <= i < j < |comps| && x in comps[i] :: x !in comps[j]
  }

  /** Every node lies in exactly one component. */
  ghost predicate Partition(adj: Adjacency, comps: seq<Component>) {
    && (forall c | c in comps :: MaximalConnected(adj, c))
    && (forall x :: x in adj <==> Covered(comps, x))
    && Disjoint(comps)
  }

  ghost predicate Decreasing(comps: seq<Component>) {
    forall i, j | 0 <= i < j < |comps| :: |comps[i]| >= |comps[j]|
  }

  /** Where a component goes among those already sorted: after all that are not smaller. */
  function Place(comps: seq<Component>, c: Component): (k: nat)
    requires Decreasing(comps)
    ensures k <= |comps|
    ensures forall i | 0 <= i < k :: |comps[i]| >= |c|
    ensures forall i | k <= i < |comps| :: |comps[i]| < |c|
  {
    if comps == [] || |comps[|comps| - 1]| >= |c| then |comps| else Place(comps[..|comps| - 1], c)
  }

  /** sorted(comps, key=len, reverse=True), which keeps equal lengths in order. */
  function SortBySize(comps: seq<Component>): (r: seq<Component>)
    ensures Decreasing(r)
  {
    if comps == [] then [] else
      var front, last := SortBySize(comps[..|comps| - 1]), comps[|comps| - 1];
      var k := Place(front, last);
      front[..k] + [last] + front[k..]
  }

  lemma Inserted(comps: seq<Component>, k: nat, c: Component)
    requires k <= |comps|
    ensures var r := comps[..k] + [c] + comps[k..];
            && (forall d :: d in r <==> d in comps || d == c)
            && (forall x :: Covered(r, x) <==> Covered(comps, x) || x in c)
            && (Disjoint(comps) && (forall x | x in c :: !Covered(comps, x)) ==> Disjoint(r))
  {
    var r := comps[..k] + [c] + comps[k..];
    assert r[k] == c;
    forall x ensures Covered(r, x) <==> Covered(comps, x) || x in c {
      if Covered(comps, x) {
        var i :| 0 <= i < |comps| && x in comps[i];
        assert x in r[if i < k then i else i + 1];
      }
      if Covered(r, x) {
        var i :| 0 <= i < |r| && x in r[i];
        if i != k { assert x in comps[if i < k then i else i - 1]; }
      }
    }
    if Disjoint(comps) && forall x | x in c :: !Covered(comps, x) {
      forall i, j, x | 0 <= i < j < |r| && x in r[i] ensures x !in r[j] {
        assert i != k ==> x in comps[if i < k then i else i - 1];
        assert j != k ==> r[j] == comps[if j < k then j else j - 1];
      }
    }
  }

  /** Sorting keeps the components, so it keeps the partition. */
  lemma {:induction false} SortKeeps(comps: seq<Component>)
    requires Disjoint(comps)
    ensures var r := SortBySize(comps);
            Disjoint(r) && (forall c :: c in r <==> c in comps) && (forall x :: Covered(r, x) <==> Covered(comps, x))
  {
    if comps != [] {
      var rest, last := comps[..|comps| - 1], comps[|comps| - 1];
      SortKeeps(rest);
      LastOf(comps);
      var front := SortBySize(rest);
      Inserted(front, Place(front, last), last);
    }
  }

  lemma LastOf(comps: seq<Component>)
    requires Disjoint(comps) && comps != []
    ensures var rest, last := comps[..|comps| - 1], comps[|comps| - 1];
            Disjoint(rest) && (forall d :: d in comps <==> d in rest || d == last)
            && (forall x :: Covered(comps, x) <==> Covered(rest, x) || x in last)
            && (forall x | x in last :: !Covered(rest, x))
  {
    var rest, last := comps[..|comps| - 1], comps[|comps| - 1];
    assert comps == rest[..|rest|] + [last] + rest[|rest|..];
    Inserted(rest, |rest|, last);
  }

  /** What one search from `start` keeps: everything queued or listed is joined to
      start and was not seen before; neighbours of listed nodes have been seen. */
  ghost predicate Flooding(
    adj: Adjacency, before: set<NodeId>, seen: set<NodeId>, start: NodeId, comp: seq<NodeId>, queue: seq<NodeId>
  ) {
    && Distinct(comp + queue)
    && (forall x | x in comp + queue :: x in adj && x !in before && Joined(adj, adj.Keys, start, x))
    && (forall x :: x in seen <==> x in before || x in comp + queue)
    && start in comp + queue
    && (forall x, y | x in comp && x in adj && y in adj[x] :: y in seen)
  }

  /** Nodes seen so far are closed under adjacency between searches. */
  ghost predicate ClosedUnder(adj: Adjacency, seen: set<NodeId>) {
    forall x, y | x in seen && x in adj && y in adj[x] :: y in seen
  }

  lemma FloodedComponent(adj: Adjacency, before: set<NodeId>, seen: set<NodeId>, start: NodeId, comp: seq<NodeId>)
    requires Simple(adj) && ClosedUnder(adj, before) && before <= adj.Keys
    requires Flooding(adj, before, seen, start, comp, [])
    ensures MaximalConnected(adj, comp) && ClosedUnder(adj, seen)
  {
    assert comp + [] == comp;
    var inside := set x | x in comp;
    forall u, v | u in inside && u in adj.Keys && u in adj && v in adj[u] && v in adj.Keys ensures v in inside {
      assert v in seen && u in adj[v];
    }
    forall x, y | x in comp ensures y in comp <==> Joined(adj, adj.Keys, x, y) {
      if Joined(adj, adj.Keys, x, y) {
        JoinedStays(adj, adj.Keys, inside, x, y);
      }
      if y in comp {
        JoinedSym(adj, adj.Keys, start, x);
        JoinedTrans(adj, adj.Keys, x, start, y);
      }
    }
  }

  /** The neighbours of x that were not seen yet join the queue, in any order. */
  method Enqueue(adj: Adjacency, x: NodeId, seen0: set<NodeId>, queue0: seq<NodeId>)
    returns (seen: set<NodeId>, queue: seq<NodeId>)
    requires x in adj
    ensures seen == seen0 + adj[x]
    ensures exists added ::
      queue == queue0 + added && Distinct(added) && forall y :: y in added <==> y in adj[x] && y !in seen0
  {
    seen, queue := seen0, queue0;
    var rest := adj[x];
    ghost var added: seq<NodeId> := [];
    while rest != {}
      invariant rest <= adj[x] && seen == seen0 + (adj[x] - rest)
      invariant queue == queue0 + added && Distinct(added)
      invariant forall y :: y in added <==> y in adj[x] - rest && y !in seen0
      decreases rest
    {
      var y: NodeId :| y in rest;
      rest := rest - {y};
      if y !in seen {
        seen := seen + {y};
        queue := queue + [y];
        added := added + [y];
      }
    }
  }

  lemma FloodStep(
    adj: Adjacency, before: set<NodeId>, seen: set<NodeId>, start: NodeId, comp: seq<NodeId>, queue: seq<NodeId>,
    added: seq<NodeId>
  )
    requires Simple(adj) && Flooding(adj, before, seen, start, comp, queue) && queue != [] && queue[0] in adj
    requires Distinct(added) && forall y :: y in added <==> y in adj[queue[0]] && y !in seen
    ensures Flooding(adj, before, seen + adj[queue[0]], start, comp + [queue[0]], queue[1..] + added)
  {
    var x := queue[0];
    var all := comp + queue;
    assert (comp + [x]) + (queue[1..] + added) == all + added;
    assert x in all && all[|comp|] == x;
    assert Distinct(all + added) by {
      forall i, j | 0 <= i < j < |all + added| ensures (all + added)[i] != (all + added)[j] {
        if i < |all| <= j { assert all[i] in all && added[j - |all|] in added; }
      }
    }
    forall y | y in added ensures y in adj && y !in before && Joined(adj, adj.Keys, start, y) {
      JoinedEdge(adj, adj.Keys, x, y);
      JoinedTrans(adj, adj.Keys, start, x, y);
    }
  }

  /** Every turn sees a new node or shortens the queue. */
  lemma Dwindles(adj: Adjacency, x: NodeId, seen: set<NodeId>, added: seq<NodeId>)
    requires Simple(adj) && x in adj && forall y :: y in added <==> y in adj[x] && y !in seen
    ensures added == [] ==> adj.Keys - (seen + adj[x]) == adj.Keys - seen
    ensures added != [] ==> |adj.Keys - (seen + adj[x])| < |adj.Keys - seen|
  {
    if added != [] {
      assert added[0] in added && added[0] in adj.Keys - seen;
      SmallerSet(adj.Keys - (seen + adj[x]), adj.Keys - seen);
    }
  }

  lemma HeadListed(comp: seq<NodeId>, queue: seq<NodeId>)
    requires queue != []
    ensures queue[0] in comp + queue
  {
    assert (comp + queue)[|comp|] == queue[0];
  }

  lemma FloodStarts(adj: Adjacency, start: NodeId, seen0: set<NodeId>)
    requires Simple(adj) && start in adj && start !in seen0
    ensures Flooding(adj, seen0, seen0 + {start}, start, [], [start])
  {
    JoinedSelf(adj, adj.Keys, start);
    assert [] + [start] == [start];
  }

  lemma InKeys(
    adj: Adjacency, before: set<NodeId>, seen: set<NodeId>, start: NodeId, comp: seq<NodeId>, queue: seq<NodeId>
  )
    requires Flooding(adj, before, seen, start, comp, queue) && queue != []
    ensures queue[0] in adj
  {
    HeadListed(comp, queue);
  }

  /** One search: the component of a node that was not seen yet. */
  method Flood(adj: Adjacency, start: NodeId, seen0: set<NodeId>) returns (comp: Component, seen: set<NodeId>)
    requires Simple(adj) && start in adj && start !in seen0 && seen0 <= adj.Keys && ClosedUnder(adj, seen0)
    ensures MaximalConnected(adj, comp) && start in comp
    ensures ClosedUnder(adj, seen) && forall x :: x in seen <==> x in seen0 || x in comp
    ensures forall x | x in comp :: x !in seen0
  {
    hide Flooding, ClosedUnder, MaximalConnected, Simple;
    var queue := [start];
    comp, seen := [], seen0 + {start};
    FloodStarts(adj, start, seen0);
    while queue != []
      invariant Flooding(adj, seen0, seen, start, comp, queue)
      decreases |adj.Keys - seen|, |queue|
    {
      ghost var seenThen, queueThen := seen, queue;
      var x := queue[0];
      InKeys(adj, seen0, seen, start, comp, queue);
      seen, queue := Enqueue(adj, x, seen, queue[1..]);
      ghost var added :| queue == queueThen[1..] + added && Distinct(added)
        && forall y :: y in added <==> y in adj[x] && y !in seenThen;
      FloodStep(adj, seen0, seenThen, start, comp, queueThen, added);
      Dwindles(adj, x, seenThen, added);
      comp := comp + [x];
    }
    FloodedComponent(adj, seen0, seen, start, comp);
    FloodedSeen(adj, seen0, seen, start, comp);
  }

  lemma FloodedSeen(adj: Adjacency, before: set<NodeId>, seen: set<NodeId>, start: NodeId, comp: seq<NodeId>)
    requires Flooding(adj, before, seen, start, comp, [])
    ensures start in comp
    ensures (forall x :: x in seen <==> x in before || x in comp) && forall x | x in comp :: x !in before
  {
    assert comp + [] == comp;
  }

  method ConnectedComponents(nodes: seq<NodeId>, adj: Adjacency) returns (result: seq<Component>)
    requires Simple(adj) && forall n :: n in nodes <==> n in adj
    ensures Partition(adj, result) && Decreasing(result)
  {
    hide MaximalConnected, ClosedUnder, Disjoint, Covered, Simple;
    var seen: set<NodeId>, comps: seq<Component> := {}, [];
    NothingSeen(adj);
    for i := 0 to |nodes|
      invariant seen <= adj.Keys && ClosedUnder(adj, seen)
      invariant forall c | c in comps :: MaximalConnected(adj, c)
      invariant forall x :: x in seen <==> Covered(comps, x)
      invariant Disjoint(comps)
      invariant forall k | 0 <= k < i :: nodes[k] in seen
    {
      if nodes[i] !in seen {
        var comp;
        comp, seen := Flood(adj, nodes[i], seen);
        Inserted(comps, |comps|, comp);
        assert comps[..|comps|] + [comp] + comps[|comps|..] == comps + [comp];
        InGraph(adj, comp);
        comps := comps + [comp];
      }
    }
    SortKeeps(comps);
    result := SortBySize(comps);
  }

  lemma NothingSeen(adj: Adjacency)
    ensures ClosedUnder(adj, {}) && Disjoint([]) && forall x :: !Covered([], x)
  {
  }

  lemma InGraph(adj: Adjacency, c: Component)
    requires MaximalConnected(adj, c)
    ensures forall x | x in c :: x in adj
  {
  }

  lemma SmallerSet<T>(a: set<T>, b: set<T>)
    requires a < b
    ensures |a| < |b|
  {
    assert b == a + (b - a);
  }
}
