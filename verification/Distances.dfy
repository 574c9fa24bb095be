/** Breadth-first distances inside a component, the diameter, and the effective
    diameter at nine tenths of the ordered pairs. */
module Distances {
  import opened Graphs
  import opened AdjacencyBuilder
  import Components

  /** There is a walk of exactly n steps from a to b. */
  ghost predicate Reaches(adj: Adjacency, within: set<NodeId>, a: NodeId, b: NodeId, n: nat) {
    exists p :: WalkFromTo(adj, within, p, a, b) && |p| == n + 1
  }

  /** n is the length of a shortest walk. */
  ghost predicate IsDistance(adj: Adjacency, within: set<NodeId>, a: NodeId, b: NodeId, n: nat) {
    Reaches(adj, within, a, b, n) && forall m: nat | m < n :: !Reaches(adj, within, a, b, m)
  }

  lemma ReachesStep(adj: Adjacency, within: set<NodeId>, a: NodeId, x: NodeId, y: NodeId, n: nat)
    requires Reaches(adj, within, a, x, n) && y in within && y in adj && x in adj && y in adj[x]
    ensures Reaches(adj, within, a, y, n + 1)
  {
    var p :| WalkFromTo(adj, within, p, a, x) && |p| == n + 1;
    assert WalkFromTo(adj, within, p + [y], a, y);
  }

  // ---- one source ----

  /** What the queue keeps: recorded numbers are lengths of walks, within one step of
      the head of the queue, and an edge out of a processed node costs at most one. */
  ghost predicate Spreading(
    adj: Adjacency, within: set<NodeId>, s: NodeId, dist: map<NodeId, nat>, queue: seq<NodeId>
  ) {
    && s in dist && dist[s] == 0
    && (forall y | y in dist :: y in within && y in adj && Reaches(adj, within, s, y, dist[y]))
    && (forall i | 0 <= i < |queue| :: queue[i] in dist)
    && (forall i, j | 0 <= i < j < |queue| :: dist[queue[i]] <= dist[queue[j]])
    && (queue != [] ==> forall y | y in dist :: dist[y] <= dist[queue[0]] + 1)
    && (forall x | x in dist && x !in queue :: Relaxed(adj, within, dist, x))
  }

  ghost predicate Relaxed(adj: Adjacency, within: set<NodeId>, dist: map<NodeId, nat>, x: NodeId) {
    x in adj && x in dist && forall y | y in adj[x] && y in within :: y in dist && dist[y] <= dist[x] + 1
  }

  /** In the middle of processing x, with `rest` of its neighbours to go. */
  ghost predicate Relaxing(
    adj: Adjacency, within: set<NodeId>, s: NodeId, x: NodeId, rest: set<NodeId>, dist: map<NodeId, nat>,
    queue: seq<NodeId>
  ) {
    && s in dist && dist[s] == 0 && x in dist && x in adj
    && (forall y | y in dist ::
          y in within && y in adj && Reaches(adj, within, s, y, dist[y]) && dist[y] <= dist[x] + 1)
    && (forall i | 0 <= i < |queue| :: queue[i] in dist && dist[x] <= dist[queue[i]])
    && (forall i, j | 0 <= i < j < |queue| :: dist[queue[i]] <= dist[queue[j]])
    && (forall y | y in dist && y !in queue && y != x :: Relaxed(adj, within, dist, y))
    && (forall y | y in adj[x] && y !in rest && y in within :: y in dist)
  }

  lemma RelaxStart(adj: Adjacency, within: set<NodeId>, s: NodeId, dist: map<NodeId, nat>, queue: seq<NodeId>)
    requires Spreading(adj, within, s, dist, queue) && queue != []
    ensures Relaxing(adj, within, s, queue[0], Neighbours(adj, queue[0]), dist, queue[1..])
  {
    assert forall y | y in dist && y !in queue[1..] && y != queue[0] :: y !in queue;
  }

  lemma StillRelaxed(adj: Adjacency, within: set<NodeId>, dist: map<NodeId, nat>, z: NodeId, y: NodeId, n: nat)
    requires Relaxed(adj, within, dist, z) && y !in dist
    ensures z in dist[y := n] && Relaxed(adj, within, dist[y := n], z)
  {
  }

  lemma RelaxStep(
    adj: Adjacency, within: set<NodeId>, s: NodeId, x: NodeId, rest: set<NodeId>, dist: map<NodeId, nat>,
    queue: seq<NodeId>, y: NodeId
  )
    requires Simple(adj) && Relaxing(adj, within, s, x, rest, dist, queue) && y in rest && y in adj[x]
    ensures y in within && y !in dist ==> Relaxing(adj, within, s, x, rest - {y}, dist[y := dist[x] + 1], queue + [y])
    ensures !(y in within && y !in dist) ==> Relaxing(adj, within, s, x, rest - {y}, dist, queue)
  {
    hide Reaches, Relaxed;
    if y in within && y !in dist {
      ReachesStep(adj, within, s, x, y, dist[x]);
      var dist', queue' := dist[y := dist[x] + 1], queue + [y];
      assert y in queue';
      forall z | z in dist' && z !in queue' && z != x ensures Relaxed(adj, within, dist', z) {
        assert z !in queue && Relaxed(adj, within, dist, z);
        StillRelaxed(adj, within, dist, z, y, dist[x] + 1);
      }
    }
  }

  lemma RelaxEnd(adj: Adjacency, within: set<NodeId>, s: NodeId, x: NodeId, dist: map<NodeId, nat>, queue: seq<NodeId>)
    requires Relaxing(adj, within, s, x, {}, dist, queue)
    ensures Spreading(adj, within, s, dist, queue)
  {
  }

  method Relax(adj: Adjacency, within: set<NodeId>, s: NodeId, dist0: map<NodeId, nat>, queue0: seq<NodeId>)
    returns (dist: map<NodeId, nat>, queue: seq<NodeId>)
    requires Simple(adj) && Spreading(adj, within, s, dist0, queue0) && queue0 != []
    ensures Spreading(adj, within, s, dist, queue)
    ensures dist0.Keys <= dist.Keys <= within
    ensures dist.Keys == dist0.Keys ==> queue == queue0[1..]
  {
    var x := queue0[0];
    dist, queue := dist0, queue0[1..];
    RelaxStart(adj, within, s, dist0, queue0);
    var rest := adj[x];
    while rest != {}
      invariant rest <= adj[x] && dist0.Keys <= dist.Keys
      invariant dist.Keys == dist0.Keys ==> queue == queue0[1..]
      invariant Relaxing(adj, within, s, x, rest, dist, queue)
      decreases rest
    {
      var y: NodeId :| y in rest;
      RelaxStep(adj, within, s, x, rest, dist, queue, y);
      rest := rest - {y};
      if y in within && y !in dist {
        dist := dist[y := dist[x] + 1];
        queue := queue + [y];
      }
    }
    RelaxEnd(adj, within, s, x, dist, queue);
  }

  method DistancesFrom(adj: Adjacency, within: set<NodeId>, s: NodeId) returns (dist: map<NodeId, nat>)
    requires Simple(adj) && s in within && s in adj
    ensures forall y :: y in dist <==> Joined(adj, within, s, y)
    ensures forall y | y in dist :: IsDistance(adj, within, s, y, dist[y])
  {
    hide Spreading, Simple, IsDistance, Joined;
    dist := map[s := 0];
    var queue := [s];
    SpreadStart(adj, within, s);
    while queue != []
      invariant Spreading(adj, within, s, dist, queue)
      decreases |within - dist.Keys|, |queue|
    {
      ghost var before := dist.Keys;
      dist, queue := Relax(adj, within, s, dist, queue);
      if dist.Keys == before {
        assert within - dist.Keys == within - before;
      } else {
        Components.SmallerSet(within - dist.Keys, within - before);
      }
    }
    SpreadIsExact(adj, within, s, dist);
  }

  lemma SpreadStart(adj: Adjacency, within: set<NodeId>, s: NodeId)
    requires s in within && s in adj
    ensures Spreading(adj, within, s, map[s := 0], [s])
  {
    assert WalkFromTo(adj, within, [s], s, s);
  }

  lemma SpreadIsExact(adj: Adjacency, within: set<NodeId>, s: NodeId, dist: map<NodeId, nat>)
    requires Spreading(adj, within, s, dist, [])
    ensures forall y :: y in dist <==> Joined(adj, within, s, y)
    ensures forall y | y in dist :: IsDistance(adj, within, s, y, dist[y])
  {
    forall y, n: nat | Reaches(adj, within, s, y, n) ensures y in dist && dist[y] <= n {
      var p :| WalkFromTo(adj, within, p, s, y) && |p| == n + 1;
      NoShorterWalk(adj, within, s, dist, p, n);
    }
    forall y ensures y in dist <==> Joined(adj, within, s, y) {
      if Joined(adj, within, s, y) {
        var p :| WalkFromTo(adj, within, p, s, y);
        assert Reaches(adj, within, s, y, |p| - 1);
      }
      if y in dist {
        assert Reaches(adj, within, s, y, dist[y]);
      }
    }
  }

  lemma {:induction false} NoShorterWalk(
    adj: Adjacency, within: set<NodeId>, s: NodeId, dist: map<NodeId, nat>, p: seq<NodeId>, n: nat
  )
    requires Spreading(adj, within, s, dist, [])
    requires IsWalk(adj, within, p) && p[0] == s && n < |p|
    ensures p[n] in dist && dist[p[n]] <= n
  {
    if n > 0 {
      NoShorterWalk(adj, within, s, dist, p, n - 1);
      assert p[n - 1 + 1] in adj[p[n - 1]];
      assert Relaxed(adj, within, dist, p[n - 1]);
    }
  }

  // ---- all ordered pairs ----

  ghost function AllPairs(nodes: set<NodeId>): set<(NodeId, NodeId)> {
    set a, b | a in nodes && b in nodes && a != b :: (a, b)
  }

  ghost predicate Near(adj: Adjacency, within: set<NodeId>, a: NodeId, b: NodeId, d: int) {
    exists n: nat :: n <= d && Reaches(adj, within, a, b, n)
  }

  /** The ordered pairs of distinct nodes at distance at most d. */
  ghost function PairsWithin(adj: Adjacency, within: set<NodeId>, d: int): set<(NodeId, NodeId)> {
    set p | p in AllPairs(within) && Near(adj, within, p.0, p.1, d)
  }

  /** d is the largest distance between two nodes. */
  ghost predicate IsDiameter(adj: Adjacency, within: set<NodeId>, d: int) {
    && (forall p | p in AllPairs(within) :: Near(adj, within, p.0, p.1, d))
    && (if AllPairs(within) == {} then d == 0
        else exists a, b, n: nat :: (a, b) in AllPairs(within) && n == d && IsDistance(adj, within, a, b, n))
  }

  /** d is the least bound that covers nine tenths of the pairs. */
  ghost predicate IsEffectiveDiameter(adj: Adjacency, within: set<NodeId>, d: int) {
    var total := |AllPairs(within)|;
    && 10 * |PairsWithin(adj, within, d)| >= 9 * total
    && forall e | 0 <= e < d :: 10 * |PairsWithin(adj, within, e)| < 9 * total
  }

  function CountLe(s: seq<nat>, d: int): nat {
    if s == [] then 0 else CountLe(s[..|s| - 1], d) + if s[|s| - 1] <= d then 1 else 0
  }

  ghost predicate Sorted(s: seq<nat>) {
    forall i, j | 0 <= i < j < |s| :: s[i] <= s[j]
  }

  function Insert(s: seq<nat>, x: nat): (r: seq<nat>)
    ensures |r| == |s| + 1
  {
    if s == [] || s[|s| - 1] <= x then s + [x] else Insert(s[..|s| - 1], x) + [s[|s| - 1]]
  }

  /** sorted(s). */
  function Sort(s: seq<nat>): (r: seq<nat>)
    ensures |r| == |s|
  {
    if s == [] then [] else Insert(Sort(s[..|s| - 1]), s[|s| - 1])
  }

  lemma CountSnoc(s: seq<nat>, x: nat, d: int)
    ensures CountLe(s + [x], d) == CountLe(s, d) + if x <= d then 1 else 0
  {
    assert (s + [x])[..|s|] == s;
  }

  lemma {:induction false} InsertCounts(s: seq<nat>, x: nat, d: int)
    ensures CountLe(Insert(s, x), d) == CountLe(s, d) + if x <= d then 1 else 0
  {
    hide CountLe;
    if s == [] || s[|s| - 1] <= x {
      CountSnoc(s, x, d);
    } else {
      var front, last := s[..|s| - 1], s[|s| - 1];
      InsertCounts(front, x, d);
      CountSnoc(Insert(front, x), last, d);
      assert s == front + [last];
      CountSnoc(front, last, d);
    }
  }

  lemma SortedSnoc(s: seq<nat>, x: nat)
    requires Sorted(s) && forall y | y in s :: y <= x
    ensures Sorted(s + [x])
  {
    forall i, j | 0 <= i < j < |s + [x]| ensures (s + [x])[i] <= (s + [x])[j] {
      assert (s + [x])[i] == s[i] && s[i] in s;
    }
  }

  lemma SortedFront(s: seq<nat>)
    requires Sorted(s) && s != []
    ensures Sorted(s[..|s| - 1]) && forall y | y in s :: y <= s[|s| - 1]
  {
    forall y | y in s ensures y <= s[|s| - 1] {
      var i :| 0 <= i < |s| && s[i] == y;
    }
  }

  lemma {:induction false} InsertMembers(s: seq<nat>, x: nat)
    ensures forall y :: y in Insert(s, x) <==> y in s || y == x
  {
    if s != [] && s[|s| - 1] > x {
      var front, last := s[..|s| - 1], s[|s| - 1];
      InsertMembers(front, x);
      assert s == front + [last];
    }
  }

  lemma {:induction false} InsertSorted(s: seq<nat>, x: nat)
    requires Sorted(s)
    ensures Sorted(Insert(s, x))
  {
    hide Sorted;
    if s == [] {
      OneSorted(x);
    } else {
      SortedFront(s);
      var front, last := s[..|s| - 1], s[|s| - 1];
      assert s == front + [last];
      if last <= x {
        SortedSnoc(s, x);
      } else {
        InsertSorted(front, x);
        InsertMembers(front, x);
        forall y | y in Insert(front, x) ensures y <= last {
          assert y in s || y == x;
        }
        SortedSnoc(Insert(front, x), last);
      }
    }
  }

  lemma OneSorted(x: nat)
    ensures Sorted([] + [x])
  {
  }

  /** Sorting keeps every element as often as it occurs. */
  lemma {:induction false} SortSorts(s: seq<nat>)
    ensures Sorted(Sort(s)) && forall y :: y in Sort(s) <==> y in s
    ensures forall d :: CountLe(Sort(s), d) == CountLe(s, d)
  {
    hide Insert, CountLe;
    if s != [] {
      var front, last := s[..|s| - 1], s[|s| - 1];
      SortSorts(front);
      assert s == front + [last];
      InsertSorted(Sort(front), last);
      InsertMembers(Sort(front), last);
      forall d ensures CountLe(Sort(s), d) == CountLe(s, d) {
        InsertCounts(Sort(front), last, d);
        CountSnoc(front, last, d);
        assert CountLe(Sort(front), d) == CountLe(front, d);
      }
    }
  }

  /** In a sorted list everything up to index k counts below s[k] and nothing after. */
  lemma {:induction false} CountAt(s: seq<nat>, k: nat, d: int)
    requires Sorted(s) && k < |s|
    ensures d >= s[k] ==> CountLe(s, d) >= k + 1
    ensures d < s[k] ==> CountLe(s, d) <= k
  {
    if k == |s| - 1 {
      CountBounds(s[..k], d);
    } else {
      CountAt(s[..|s| - 1], k, d);
    }
  }

  lemma {:induction false} CountBounds(s: seq<nat>, d: int)
    ensures CountLe(s, d) <= |s|
    ensures (forall i | 0 <= i < |s| :: s[i] <= d) ==> CountLe(s, d) == |s|
  {
    if s != [] {
      CountBounds(s[..|s| - 1], d);
    }
  }

  // ---- the list of distances stands for the recorded pairs ----

  ghost function RecordedWithin(rec: map<(NodeId, NodeId), nat>, d: int): set<(NodeId, NodeId)> {
    set p | p in rec && rec[p] <= d
  }

  ghost predicate Stands(all: seq<nat>, rec: map<(NodeId, NodeId), nat>) {
    |all| == |rec| && forall d :: CountLe(all, d) == |RecordedWithin(rec, d)|
  }

  lemma StandsAdd(all: seq<nat>, rec: map<(NodeId, NodeId), nat>, p: (NodeId, NodeId), n: nat)
    requires Stands(all, rec) && p !in rec
    ensures Stands(all + [n], rec[p := n])
  {
    assert rec[p := n].Keys == rec.Keys + {p};
    assert (all + [n])[..|all|] == all;
    forall d ensures CountLe(all + [n], d) == |RecordedWithin(rec[p := n], d)| {
      RecordedMore(rec, p, n, d);
      assert CountLe(all, d) == |RecordedWithin(rec, d)|;
    }
  }

  lemma RecordedMore(rec: map<(NodeId, NodeId), nat>, p: (NodeId, NodeId), n: nat, d: int)
    requires p !in rec
    ensures |RecordedWithin(rec[p := n], d)| == |RecordedWithin(rec, d)| + if n <= d then 1 else 0
  {
    assert RecordedWithin(rec[p := n], d) == RecordedWithin(rec, d) + if n <= d then {p} else {};
  }

  /** A recorded pair has its distance, and the pairs of finished sources are all there. */
  ghost predicate Recorded(adj: Adjacency, within: set<NodeId>, rec: map<(NodeId, NodeId), nat>, ecc: nat) {
    && (forall p | p in rec :: p in AllPairs(within) && IsDistance(adj, within, p.0, p.1, rec[p]) && rec[p] <= ecc)
    && (if rec == map[] then ecc == 0 else exists p :: p in rec && rec[p] == ecc)
  }

  /** Recorded are the pairs of before, and those of s with the nodes that were visited. */
  ghost predicate Visited(
    rec0: map<(NodeId, NodeId), nat>, rec: map<(NodeId, NodeId), nat>, s: NodeId, seen: set<NodeId>
  ) {
    forall p :: p in rec <==> p in rec0 || (p.0 == s && p.1 in seen && p.1 != s)
  }

  lemma VisitedMore(
    rec0: map<(NodeId, NodeId), nat>, rec: map<(NodeId, NodeId), nat>, s: NodeId, seen: set<NodeId>, y: NodeId, n: nat
  )
    requires Visited(rec0, rec, s, seen)
    ensures y == s ==> Visited(rec0, rec, s, seen + {y})
    ensures y != s ==> Visited(rec0, rec[(s, y) := n], s, seen + {y})
  {
  }

  /** Add the distances of one source to the list. */
  method Record(
    adj: Adjacency, within: set<NodeId>, s: NodeId, dist: map<NodeId, nat>, all0: seq<nat>, ecc0: nat,
    ghost rec0: map<(NodeId, NodeId), nat>
  )
    returns (all: seq<nat>, ecc: nat, ghost rec: map<(NodeId, NodeId), nat>)
    requires s in within && dist.Keys == within
    requires (forall y | y in dist :: IsDistance(adj, within, s, y, dist[y])) && dist[s] == 0
    requires Stands(all0, rec0) && Recorded(adj, within, rec0, ecc0) && forall p | p in rec0 :: p.0 != s
    ensures Stands(all, rec) && Recorded(adj, within, rec, ecc)
    ensures forall p :: p in rec <==> p in rec0 || (p.0 == s && p in AllPairs(within))
  {
    hide Stands, Recorded, IsDistance, Visited, AllPairs;
    all, ecc, rec := all0, ecc0, rec0;
    var rest := within;
    NoneVisited(rec0, s);
    assert within - rest == {};
    while rest != {}
      invariant rest <= within
      invariant Stands(all, rec) && Recorded(adj, within, rec, ecc) && Visited(rec0, rec, s, within - rest)
      decreases rest
    {
      var y: NodeId :| y in rest;
      NotYet(rec0, rec, s, within - rest, y);
      VisitedMore(rec0, rec, s, within - rest, y, dist[y]);
      assert within - (rest - {y}) == (within - rest) + {y};
      rest := rest - {y};
      if dist[y] > 0 {
        PairOf(within, s, y);
        StandsAdd(all, rec, (s, y), dist[y]);
        RecordedAdd(adj, within, rec, ecc, (s, y), dist[y]);
        all, rec := all + [dist[y]], rec[(s, y) := dist[y]];
      } else {
        DistanceReaches(adj, within, s, y);
        ZeroIsSelf(adj, within, s, y);
      }
      ecc := if dist[y] > ecc then dist[y] else ecc;
    }
    assert within - rest == within;
    AllVisited(rec0, rec, s, within);
  }

  lemma NoneVisited(rec0: map<(NodeId, NodeId), nat>, s: NodeId)
    ensures Visited(rec0, rec0, s, {})
  {
  }

  lemma AllVisited(rec0: map<(NodeId, NodeId), nat>, rec: map<(NodeId, NodeId), nat>, s: NodeId, within: set<NodeId>)
    requires Visited(rec0, rec, s, within) && s in within
    ensures forall p :: p in rec <==> p in rec0 || (p.0 == s && p in AllPairs(within))
  {
  }

  lemma NotYet(
    rec0: map<(NodeId, NodeId), nat>, rec: map<(NodeId, NodeId), nat>, s: NodeId, seen: set<NodeId>, y: NodeId
  )
    requires Visited(rec0, rec, s, seen) && y !in seen && forall p | p in rec0 :: p.0 != s
    ensures (s, y) !in rec
  {
  }

  lemma PairOf(within: set<NodeId>, s: NodeId, y: NodeId)
    requires s in within && y in within
    ensures s != y ==> (s, y) in AllPairs(within)
  {
  }

  lemma DistanceReaches(adj: Adjacency, within: set<NodeId>, s: NodeId, y: NodeId)
    requires IsDistance(adj, within, s, y, 0)
    ensures Reaches(adj, within, s, y, 0)
  {
  }

  lemma NoneRecorded(adj: Adjacency, within: set<NodeId>)
    ensures Stands([], map[]) && Recorded(adj, within, map[], 0)
  {
    assert forall d :: RecordedWithin(map[], d) == {};
  }

  lemma SelfDistance(adj: Adjacency, within: set<NodeId>, s: NodeId, n: nat)
    requires s in within && s in adj && IsDistance(adj, within, s, s, n)
    ensures n == 0
  {
    assert WalkFromTo(adj, within, [s], s, s);
    assert Reaches(adj, within, s, s, 0);
  }

  lemma ZeroIsSelf(adj: Adjacency, within: set<NodeId>, a: NodeId, b: NodeId)
    requires Reaches(adj, within, a, b, 0)
    ensures a == b
  {
  }

  lemma RecordedAdd(
    adj: Adjacency, within: set<NodeId>, rec: map<(NodeId, NodeId), nat>, ecc: nat, p: (NodeId, NodeId), n: nat
  )
    requires Recorded(adj, within, rec, ecc) && p in AllPairs(within) && IsDistance(adj, within, p.0, p.1, n)
    ensures Recorded(adj, within, rec[p := n], if n > ecc then n else ecc)
  {
    var rec' := rec[p := n];
    assert p in rec';
    if n <= ecc && rec != map[] && p !in rec {
      var q :| q in rec && rec[q] == ecc;
      assert q in rec' && rec'[q] == ecc;
    }
    if p in rec {
      SameDistance(adj, within, p.0, p.1, n, rec[p]);
      assert rec' == rec;
    }
  }

  lemma SameDistance(adj: Adjacency, within: set<NodeId>, a: NodeId, b: NodeId, m: nat, n: nat)
    requires IsDistance(adj, within, a, b, m) && IsDistance(adj, within, a, b, n)
    ensures m == n
  {
  }

  lemma AllRecorded(adj: Adjacency, within: set<NodeId>, rec: map<(NodeId, NodeId), nat>, ecc: nat)
    requires Recorded(adj, within, rec, ecc) && rec.Keys == AllPairs(within)
    ensures IsDiameter(adj, within, ecc)
    ensures forall d :: RecordedWithin(rec, d) == PairsWithin(adj, within, d)
  {
    forall d, p | p in AllPairs(within) ensures Near(adj, within, p.0, p.1, d) <==> rec[p] <= d {
      assert IsDistance(adj, within, p.0, p.1, rec[p]);
    }
    if rec != map[] {
      var p :| p in rec && rec[p] == ecc;
      assert (p.0, p.1) in AllPairs(within);
    }
  }

  /** The positive distances from every node of the component, with the largest. */
  method AllDistances(adj: Adjacency, comp: seq<NodeId>)
    returns (all: seq<nat>, ecc: nat, ghost rec: map<(NodeId, NodeId), nat>)
    requires Simple(adj) && Components.MaximalConnected(adj, comp)
    ensures var within := set x | x in comp;
            Stands(all, rec) && Recorded(adj, within, rec, ecc) && rec.Keys == AllPairs(within)
  {
    hide Stands, Recorded, IsDistance, Simple, AllPairs;
    var allowed := set x | x in comp;
    all, ecc, rec := [], 0, map[];
    NoneRecorded(adj, allowed);
    for i := 0 to |comp|
      invariant Stands(all, rec) && Recorded(adj, allowed, rec, ecc)
      invariant forall p :: p in rec <==> p in AllPairs(allowed) && p.0 in comp[..i]
    {
      var s := comp[i];
      InsideJoined(adj, comp, s);
      var dist := DistancesFrom(adj, allowed, s);
      assert dist.Keys == allowed;
      SelfDistance(adj, allowed, s, dist[s]);
      assert s !in comp[..i];
      all, ecc, rec := Record(adj, allowed, s, dist, all, ecc, rec);
      assert comp[..i + 1] == comp[..i] + [s];
    }
    assert comp[..|comp|] == comp;
    FromInside(allowed);
  }

  lemma FromInside(nodes: set<NodeId>)
    ensures forall p | p in AllPairs(nodes) :: p.0 in nodes
  {
  }

  /** The entry at index ceil(9n/10) - 1 of the sorted list. */
  method DiameterAndEffective(adj: Adjacency, comp: seq<NodeId>) returns (diameter: nat, effective: nat)
    requires Simple(adj) && Components.MaximalConnected(adj, comp)
    ensures IsDiameter(adj, (set x | x in comp), diameter)
    ensures IsEffectiveDiameter(adj, (set x | x in comp), effective)
  {
    ghost var within := set x | x in comp;
    var all, ecc; ghost var rec;
    all, ecc, rec := AllDistances(adj, comp);
    AllRecorded(adj, within, rec, ecc);
    if all == [] {
      NoPairs(adj, within, rec, ecc);
      return 0, 0;
    }
    var sorted := Sort(all);
    diameter, effective := ecc, sorted[NinthTenth(|all|)];
    EffectiveAt(adj, within, all, rec);
  }

  lemma NoPairs(adj: Adjacency, within: set<NodeId>, rec: map<(NodeId, NodeId), nat>, ecc: nat)
    requires Stands([], rec) && Recorded(adj, within, rec, ecc) && rec.Keys == AllPairs(within)
    ensures ecc == 0 && IsEffectiveDiameter(adj, within, 0)
  {
    assert |rec| == 0 && rec == map[];
    assert PairsWithin(adj, within, 0) == {};
  }

  /** ceil(0.9 n) - 1 */
  function NinthTenth(n: nat): (idx: nat)
    requires n > 0
    ensures idx < n && 10 * idx < 9 * n <= 10 * (idx + 1)
  {
    (9 * n + 9) / 10 - 1
  }

  lemma EffectiveAt(adj: Adjacency, within: set<NodeId>, all: seq<nat>, rec: map<(NodeId, NodeId), nat>)
    requires Stands(all, rec) && rec.Keys == AllPairs(within) && all != []
    requires forall d :: RecordedWithin(rec, d) == PairsWithin(adj, within, d)
    ensures IsEffectiveDiameter(adj, within, Sort(all)[NinthTenth(|all|)])
  {
    var sorted, idx := Sort(all), NinthTenth(|all|);
    SortSorts(all);
    assert |AllPairs(within)| == |rec| == |all|;
    CountAt(sorted, idx, sorted[idx]);
    forall e | 0 <= e < sorted[idx] ensures |PairsWithin(adj, within, e)| <= idx { CountAt(sorted, idx, e); }
  }

  /** Inside a component, everything is joined without leaving it. */
  lemma InsideJoined(adj: Adjacency, comp: seq<NodeId>, s: NodeId)
    requires Simple(adj) && Components.MaximalConnected(adj, comp) && s in comp
    ensures forall y :: y in comp <==> Joined(adj, (set x | x in comp), s, y)
  {
    var inside := set x | x in comp;
    forall y ensures y in comp <==> Joined(adj, inside, s, y) {
      if y in comp {
        var p :| WalkFromTo(adj, adj.Keys, p, s, y);
        forall i | 0 <= i < |p| ensures p[i] in inside {
          assert WalkFromTo(adj, adj.Keys, p[..i + 1], s, p[i]);
        }
        assert WalkFromTo(adj, inside, p, s, y);
      }
    }
  }
}
