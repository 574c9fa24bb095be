/** The stack-based low-link loop that counts articulation points and bridges. */
module LowLink {
  import opened Graphs
  import opened DepthFirst

  import opened Basics

  // ---- what a finished child says about its parent ----

  function Child(s: Search): NodeId
    requires s.stack != []
  {
    s.stack[TopIndex(s)].node
  }

  function Parent(s: Search): NodeId
    requires |s.stack| > 1
  {
    s.stack[TopIndex(s) - 1].node
  }

  /** The finished child with everything below it. */
  ghost function Subtree(s: Search): set<NodeId>
    requires |s.sides| == |s.stack| > 0
  {
    s.sides[TopIndex(s)] + {Child(s)}
  }

  lemma SubtreeShape(adj: Adjacency, s: Search)
    requires Popping(adj, s)
    ensures Subtree(s) <= adj.Keys && Parent(s) in adj && Child(s) in adj && Child(s) in adj[Parent(s)]
    ensures Parent(s) in adj[Child(s)]
    ensures s.stack[TopIndex(s)].parent == Some(Parent(s))
    ensures forall j | 0 <= j < TopIndex(s) :: s.stack[j].node !in Subtree(s) && s.stack[j].node in adj
    ensures forall j | 0 <= j < TopIndex(s) - 1 ::
      s.stack[j].node in s.disc && s.disc[s.stack[j].node] < s.disc[Parent(s)] && s.stack[j].node != Parent(s)
    ensures Child(s) in s.disc && Parent(s) in s.disc && s.disc[Parent(s)] < s.disc[Child(s)]
    ensures forall u | u in Subtree(s) :: u in s.disc && s.disc[Child(s)] <= s.disc[u]
  {
    hide ExitsAt, HangAt, AttainedAt, BoundedAt, Witnessed;
    var top := TopIndex(s);
    assert LinkedAt(adj, s.stack, top) && SplitAt(adj, s, top) && TimesAt(s, top) && TimesAt(s, top - 1)
      && LinkedAt(adj, s.stack, top - 1);
    forall j | 0 <= j < top ensures s.stack[j].node in adj { assert LinkedAt(adj, s.stack, j); }
  }

  /** Edges out of the subtree go up the stack, and low bounds how far. */
  lemma SubtreeExit(adj: Adjacency, s: Search, u: NodeId, w: NodeId) returns (j: int)
    requires Popping(adj, s) && u in Subtree(s) && u in adj && w in adj[u] && w !in Subtree(s)
    ensures 0 <= j < TopIndex(s) && s.stack[j].node == w && w in s.disc && Child(s) in s.low
    ensures !(u == Child(s) && w == Parent(s)) ==> s.low[Child(s)] <= s.disc[w]
  {
    hide SplitAt, HangAt, AttainedAt;
    var top := TopIndex(s);
    assert ExitsAt(adj, s, top) && BoundedAt(adj, s, top) && LinkedAt(adj, s.stack, top);
    assert On(s.stack, top, w) by { OnLast(s.stack, top, w); }
    j :| 0 <= j < top && s.stack[j].node == w;
    assert TimesAt(s, top);
  }

  /** When low is smaller than a node's own time, the subtree has such an edge. */
  lemma SubtreeWitness(adj: Adjacency, s: Search) returns (u: NodeId, w: NodeId, j: int)
    requires Popping(adj, s) && Parent(s) in s.disc && s.low[Child(s)] <= s.disc[Parent(s)]
    ensures u in Subtree(s) && u in adj && w in adj[u] && w in s.disc && s.disc[w] == s.low[Child(s)]
    ensures !(u == Child(s) && w == Parent(s))
    ensures w !in Subtree(s) && 0 <= j < TopIndex(s) && s.stack[j].node == w
  {
    hide LinkedAt, SplitAt, ExitsAt, TimesAt, HangAt, BoundedAt;
    var top := TopIndex(s);
    SubtreeShape(adj, s);
    assert AttainedAt(adj, s, top);
    u, w :| u in s.sides[top] + {Child(s)} && u in adj && w in adj[u] && w in s.disc && s.disc[w] == s.low[Child(s)]
      && !(u == Child(s) && Some(w) == s.stack[top].parent);
    j := SubtreeExit(adj, s, u, w);
  }

  lemma SubtreeJoined(adj: Adjacency, s: Search, x: NodeId, y: NodeId)
    requires Popping(adj, s) && x in Subtree(s) && y in Subtree(s)
    ensures Joined(adj, Subtree(s), x, y)
  {
    SubtreeShape(adj, s);
    var top := TopIndex(s);
    assert HangAt(adj, Child(s), s.sides[top]);
    JoinedSelf(adj, Subtree(s), Child(s));
    JoinedSym(adj, Subtree(s), Child(s), x);
    JoinedTrans(adj, Subtree(s), x, Child(s), y);
  }

  lemma CutFromLow(adj: Adjacency, s: Search)
    requires Popping(adj, s) && |s.stack| > 2 && Parent(s) in s.disc && s.low[Child(s)] >= s.disc[Parent(s)]
    ensures IsCut(adj, Parent(s))
  {
    SubtreeShape(adj, s);
    var p, grand := Parent(s), s.stack[TopIndex(s) - 2].node;
    forall u, w | u in Subtree(s) && u in adj && w in adj[u] && w !in Subtree(s) ensures w == p {
      var j := SubtreeExit(adj, s, u, w);
    }
    assert grand in adj[p] by { assert LinkedAt(adj, s.stack, TopIndex(s) - 1); }
    CutByNeighbours(adj, p, Child(s), grand, Subtree(s));
  }

  lemma AroundParent(adj: Adjacency, s: Search, x: NodeId)
    requires Popping(adj, s) && |s.stack| > 2 && Parent(s) in s.disc && s.low[Child(s)] < s.disc[Parent(s)]
    requires x in Subtree(s)
    ensures Joined(adj, adj.Keys - {Parent(s)}, x, s.stack[TopIndex(s) - 2].node)
  {
    SubtreeShape(adj, s);
    var p, top := Parent(s), TopIndex(s);
    var rest := adj.Keys - {p};
    var u, w, j := SubtreeWitness(adj, s);
    SubtreeJoined(adj, s, x, u);
    JoinedMono(adj, Subtree(s), rest, x, u);
    JoinedEdge(adj, rest, u, w);
    assert !On(s.stack, top - 1, p);
    AlongWithout(adj, s.stack, j, top - 2, p);
    JoinedTrans(adj, rest, x, u, w);
    JoinedTrans(adj, rest, x, w, s.stack[top - 2].node);
  }

  lemma BridgeFromLow(adj: Adjacency, s: Search)
    requires Popping(adj, s) && Parent(s) in s.disc && s.low[Child(s)] > s.disc[Parent(s)]
    ensures IsBridge(adj, Child(s), Parent(s))
  {
    SubtreeShape(adj, s);
    var c, p := Child(s), Parent(s);
    var cutAdj := WithoutEdge(adj, c, p);
    forall u, w | u in Subtree(s) && u in adj.Keys && u in cutAdj && w in cutAdj[u] && w in adj.Keys
      ensures w in Subtree(s)
    {
      if w !in Subtree(s) {
        var j := SubtreeExit(adj, s, u, w);
      }
    }
    if Joined(cutAdj, adj.Keys, c, p) {
      JoinedStays(cutAdj, adj.Keys, Subtree(s), c, p);
    }
  }

  lemma NoBridgeFromLow(adj: Adjacency, s: Search)
    requires Popping(adj, s) && Parent(s) in s.disc && s.low[Child(s)] <= s.disc[Parent(s)]
    ensures !IsBridge(adj, Child(s), Parent(s))
  {
    SubtreeShape(adj, s);
    var c, p, top := Child(s), Parent(s), TopIndex(s);
    var u, w, j := SubtreeWitness(adj, s);
    SubtreeJoined(adj, s, c, u);
    Along(adj, s.stack, j, top - 1);
    StackPart(adj, s.stack, top, c);
    Detour(adj, Subtree(s), Nodes(s.stack[..top]), c, u, w, p);
  }

  lemma StackPart(adj: Adjacency, stack: seq<Frame>, n: int, v: NodeId)
    requires Chain(adj, stack) && 0 <= n <= |stack|
    requires forall j | 0 <= j < n :: stack[j].node != v
    ensures Nodes(stack[..n]) <= adj.Keys && v !in Nodes(stack[..n])
  {
    forall x | x in Nodes(stack[..n]) ensures x in adj && x != v {
      var f :| f in stack[..n] && f.node == x;
      var k :| 0 <= k < n && stack[..n][k] == f;
      assert LinkedAt(adj, stack, k) && stack[k].node == x;
    }
  }

  /** c to u inside one set, over another edge to w, and on to p inside a second
      set: a way around the edge c-p. */
  lemma Detour(adj: Adjacency, left: set<NodeId>, right: set<NodeId>, c: NodeId, u: NodeId, w: NodeId, p: NodeId)
    requires Simple(adj) && left <= adj.Keys && right <= adj.Keys
    requires p !in left && c !in right && c in adj && p in adj
    requires Joined(adj, left, c, u) && u in left && w in adj[u] && w in right && !(u == c && w == p)
    requires Joined(adj, right, w, p)
    ensures !IsBridge(adj, c, p)
  {
    var g := WithoutEdge(adj, c, p);
    JoinedWithoutEdge(adj, left, c, p, c, u);
    JoinedMono(g, left, adj.Keys, c, u);
    JoinedEdge(g, adj.Keys, u, w);
    JoinedWithoutEdge(adj, right, c, p, w, p);
    JoinedMono(g, right, adj.Keys, w, p);
    JoinedTrans(g, adj.Keys, c, u, w);
    JoinedTrans(g, adj.Keys, c, w, p);
  }

  /** An edge to an ancestor that is not the parent lies on a cycle. */
  lemma BackEdgeNoBridge(adj: Adjacency, s: Search, j: int)
    requires Popping(adj, s) && 0 <= j < TopIndex(s) - 1 && Child(s) in adj && s.stack[j].node in adj[Child(s)]
    ensures !IsBridge(adj, Child(s), s.stack[j].node)
  {
    SubtreeShape(adj, s);
    var c, p, top, w := Child(s), Parent(s), TopIndex(s), s.stack[j].node;
    Along(adj, s.stack, j, top - 1);
    StackPart(adj, s.stack, top, c);
    var right := Nodes(s.stack[..top]);
    assert s.stack[..top][top - 1] == s.stack[top - 1];
    JoinedSym(adj, right, w, p);
    JoinedSelf(adj, {c}, c);
    Detour(adj, {c}, right, c, c, p, w);
  }

  /** A popped node that is not recorded is no cut vertex. */
  lemma NoCutAtPop(adj: Adjacency, s: Search)
    requires Popping(adj, s)
    requires forall u | u in s.sides[TopIndex(s)] :: Joined(adj, adj.Keys - {Child(s)}, u, Parent(s))
    ensures !IsCut(adj, Child(s))
  {
    SubtreeShape(adj, s);
    var c, p, top := Child(s), Parent(s), TopIndex(s);
    forall y | y in adj[c] ensures Joined(adj, adj.Keys - {c}, y, p) {
      if y !in s.sides[top] {
        var j := SubtreeExit(adj, s, c, y);
        assert !On(s.stack, top, c);
        AlongWithout(adj, s.stack, j, top - 1, c);
      }
    }
    NotCutByHub(adj, c, p);
  }

  // ---- what has been counted so far ----

  ghost predicate RoundAt(adj: Adjacency, s: Search, aps: set<NodeId>, i: int)
    requires 0 < i < |s.stack| == |s.sides|
  {
    s.stack[i].node in aps
    || forall u | u in s.sides[i] :: Joined(adj, adj.Keys - {s.stack[i].node}, u, s.stack[i - 1].node)
  }

  /** `pending` holds a root whose verdict waits for its count of children. */
  ghost predicate CutsFound(adj: Adjacency, s: Search, aps: set<NodeId>, pending: set<NodeId>) {
    && |s.sides| == |s.stack|
    && (forall a | a in aps :: a in adj && IsCut(adj, a))
    && (forall u | Finished(s, u) && u !in pending && IsCut(adj, u) :: u in aps)
    && (forall i | 0 < i < |s.stack| :: RoundAt(adj, s, aps, i))
  }

  ghost predicate OneBranch(adj: Adjacency, side: set<NodeId>) {
    exists c :: c in side && forall u | u in side :: Joined(adj, side, c, u)
  }

  ghost predicate RootOk(adj: Adjacency, s: Search, children: int) {
    && |s.sides| == |s.stack| > 0
    && 0 <= children
    && (children == 0 ==> |s.stack| == 1 && s.sides[0] == {})
    && (children > 1 ==> IsCut(adj, s.stack[0].node))
    && (children == 1 && |s.stack| > 1 ==> s.sides[0] == {})
    && (children >= 1 && |s.stack| == 1 ==>
          exists c :: c in s.sides[0] && s.stack[0].node in adj && c in adj[s.stack[0].node])
    && (children == 1 && |s.stack| == 1 ==> OneBranch(adj, s.sides[0]))
  }

  ghost predicate Counted(adj: Adjacency, s: Search, e: set<NodeId>) {
    exists u, w :: e == {u, w} && IsBridge(adj, u, w) && Finished(s, u)
  }

  ghost predicate BridgesFound(adj: Adjacency, s: Search, found: set<set<NodeId>>) {
    && (forall e | e in found :: Counted(adj, s, e))
    && (forall u, w | Finished(s, u) && IsBridge(adj, u, w) :: {u, w} in found)
  }

  /** Both tallies depend only on the nodes on the stack and on what is finished. */
  lemma SameTally(adj: Adjacency, s: Search, t: Search, aps: set<NodeId>, found: set<set<NodeId>>, children: int)
    requires CutsFound(adj, s, aps, {}) && BridgesFound(adj, s, found) && RootOk(adj, s, children)
    requires |t.stack| == |s.stack| && t.sides == s.sides && t.done == s.done
    requires forall i | 0 <= i < |t.stack| :: t.stack[i].node == s.stack[i].node
    ensures CutsFound(adj, t, aps, {}) && BridgesFound(adj, t, found) && RootOk(adj, t, children)
  {
    assert forall x :: Finished(t, x) <==> Finished(s, x);
    forall i | 0 < i < |t.stack| ensures RoundAt(adj, t, aps, i) { assert RoundAt(adj, s, aps, i); }
    forall e | e in found ensures Counted(adj, t, e) {
      var u, w :| e == {u, w} && IsBridge(adj, u, w) && Finished(s, u);
    }
  }

  lemma TallyStart(adj: Adjacency, s: Search, aps: set<NodeId>, found: set<set<NodeId>>, root: NodeId)
    requires s.stack == [] && s.sides == [] && root in adj
    requires CutsFound(adj, s, aps, {}) && BridgesFound(adj, s, found)
    ensures var t := Start(adj, s, root); CutsFound(adj, t, aps, {}) && BridgesFound(adj, t, found) && RootOk(adj, t, 0)
  {
    var t := Start(adj, s, root);
    assert forall x :: Finished(t, x) <==> Finished(s, x);
    forall e | e in found ensures Counted(adj, t, e) {
      var u, w :| e == {u, w} && IsBridge(adj, u, w) && Finished(s, u);
    }
  }

  lemma TallyPush(adj: Adjacency, s: Search, aps: set<NodeId>, found: set<set<NodeId>>, nxt: NodeId)
    requires s.stack != [] && nxt in adj && CutsFound(adj, s, aps, {}) && BridgesFound(adj, s, found)
    ensures CutsFound(adj, Push(adj, s, nxt), aps, {}) && BridgesFound(adj, Push(adj, s, nxt), found)
  {
    var t := Push(adj, s, nxt);
    forall x ensures Finished(t, x) <==> Finished(s, x) { PushFinished(adj, s, nxt, x); }
    forall i | 0 < i < |t.stack| ensures RoundAt(adj, t, aps, i) {
      if i < |s.stack| { assert RoundAt(adj, s, aps, i); }
    }
    forall e | e in found ensures Counted(adj, t, e) {
      var u, w :| e == {u, w} && IsBridge(adj, u, w) && Finished(s, u);
    }
  }

  lemma TallyPushRoot(adj: Adjacency, s: Search, children: int, nxt: NodeId)
    requires Inv(adj, s) && s.stack != [] && RootOk(adj, s, children)
    requires nxt in s.stack[TopIndex(s)].todo && nxt !in s.disc && nxt in adj
    ensures RootOk(adj, Push(adj, s, nxt), if |s.stack| == 1 then children + 1 else children)
  {
    if |s.stack| == 1 && children >= 1 {
      SecondBranch(adj, s, nxt);
    }
  }

  /** A second child of the root is out of reach of the first without the root. */
  lemma SecondBranch(adj: Adjacency, s: Search, nxt: NodeId)
    requires Inv(adj, s) && |s.stack| == 1 && nxt in s.stack[0].todo && nxt !in s.disc
    requires exists c :: c in s.sides[0] && s.stack[0].node in adj && c in adj[s.stack[0].node]
    ensures IsCut(adj, s.stack[0].node)
  {
    var root := s.stack[0].node;
    assert LinkedAt(adj, s.stack, 0) && SplitAt(adj, s, 0) && ExitsAt(adj, s, 0) && TimesAt(s, 0);
    var c :| c in s.sides[0] && c in adj[root];
    assert forall x :: On(s.stack, 1, x) ==> x == root;
    CutByNeighbours(adj, root, c, nxt, s.sides[0]);
  }

  function CutsAfterPop(s: Search, aps: set<NodeId>): set<NodeId>
    requires |s.stack| > 1 && Child(s) in s.low && Parent(s) in s.disc
  {
    if |s.stack| > 2 && s.low[Child(s)] >= s.disc[Parent(s)] then aps + {Parent(s)} else aps
  }

  function BridgesAfterPop(s: Search, found: set<set<NodeId>>): set<set<NodeId>>
    requires |s.stack| > 1 && Child(s) in s.low && Parent(s) in s.disc
  {
    if s.low[Child(s)] > s.disc[Parent(s)] then found + {{Child(s), Parent(s)}} else found
  }

  lemma TallyPopCuts(adj: Adjacency, s: Search, aps: set<NodeId>)
    requires Popping(adj, s) && Parent(s) in s.disc && CutsFound(adj, s, aps, {})
    ensures CutsFound(adj, Pop(s), CutsAfterPop(s, aps), {})
  {
    hide LinkedAt, SplitAt, ExitsAt, TimesAt, HangAt, AttainedAt, BoundedAt, Witnessed, IsCut;
    var aps' := CutsAfterPop(s, aps);
    SubtreeShape(adj, s);
    if aps' != aps { CutFromLow(adj, s); }
    assert RoundAt(adj, s, aps, TopIndex(s));
    if Child(s) !in aps { NoCutAtPop(adj, s); }
    forall u | Finished(Pop(s), u) && IsCut(adj, u) ensures u in aps' { PopFinished(s, u); }
    PopRounds(adj, s, aps);
  }

  lemma PopRounds(adj: Adjacency, s: Search, aps: set<NodeId>)
    requires Popping(adj, s) && Parent(s) in s.disc && CutsFound(adj, s, aps, {})
    ensures forall i | 0 < i < |s.stack| - 1 :: RoundAt(adj, Pop(s), CutsAfterPop(s, aps), i)
  {
    hide Joined, LinkedAt, SplitAt, ExitsAt, TimesAt, HangAt, AttainedAt, BoundedAt, Finished;
    var aps' := CutsAfterPop(s, aps);
    forall i | 0 < i < |s.stack| - 1 ensures RoundAt(adj, Pop(s), aps', i) {
      assert RoundAt(adj, s, aps, i);
      if i == TopIndex(s) - 1 { RoundAtParent(adj, s, aps); }
    }
  }

  /** A parent that is not counted now is passed by every walk from its new side. */
  lemma RoundAtParent(adj: Adjacency, s: Search, aps: set<NodeId>)
    requires Popping(adj, s) && Parent(s) in s.disc && |s.stack| > 2 && RoundAt(adj, s, aps, TopIndex(s) - 1)
    ensures RoundAt(adj, Pop(s), CutsAfterPop(s, aps), TopIndex(s) - 1)
  {
    hide Joined, LinkedAt, SplitAt, ExitsAt, TimesAt, HangAt, AttainedAt, BoundedAt, Finished;
    if Parent(s) !in CutsAfterPop(s, aps) {
      var i := TopIndex(s) - 1;
      forall u | u in Pop(s).sides[i] ensures Joined(adj, adj.Keys - {Parent(s)}, u, s.stack[i - 1].node) {
        if u in Subtree(s) { AroundParent(adj, s, u); }
      }
    }
  }

  lemma TallyPopRoot(adj: Adjacency, s: Search, children: int)
    requires Popping(adj, s) && RootOk(adj, s, children)
    ensures RootOk(adj, Pop(s), children)
  {
    var t, top := Pop(s), TopIndex(s);
    SubtreeShape(adj, s);
    if top == 1 {
      assert Child(s) in t.sides[0] && Child(s) in adj[t.stack[0].node];
      if children == 1 {
        assert t.sides[0] == Subtree(s);
        forall u | u in Subtree(s) { SubtreeJoined(adj, s, Child(s), u); }
      }
    }
  }

  lemma TallyPopBridges(adj: Adjacency, s: Search, found: set<set<NodeId>>)
    requires Popping(adj, s) && Parent(s) in s.disc && BridgesFound(adj, s, found)
    ensures var found' := BridgesAfterPop(s, found);
            BridgesFound(adj, Pop(s), found')
            && |found'| == |found| + if s.low[Child(s)] > s.disc[Parent(s)] then 1 else 0
  {
    var t, c, p, found' := Pop(s), Child(s), Parent(s), BridgesAfterPop(s, found);
    SubtreeShape(adj, s);
    if s.low[c] > s.disc[p] { BridgeFromLow(adj, s); } else { NoBridgeFromLow(adj, s); }
    NotCountedYet(adj, s, found);
    forall x ensures Finished(t, x) <==> Finished(s, x) || x == c { PopFinished(s, x); }
    forall e | e in found' ensures Counted(adj, t, e) {
      if e in found {
        var u, w :| e == {u, w} && IsBridge(adj, u, w) && Finished(s, u);
      }
    }
    forall u, w | Finished(t, u) && IsBridge(adj, u, w) ensures {u, w} in found' {
      if u == c && w != p {
        ChildBridgeCounted(adj, s, found, w);
      }
    }
  }

  lemma ChildBridgeCounted(adj: Adjacency, s: Search, found: set<set<NodeId>>, w: NodeId)
    requires Popping(adj, s) && BridgesFound(adj, s, found)
    requires IsBridge(adj, Child(s), w) && w != Parent(s)
    ensures {Child(s), w} in found
  {
    var c, top := Child(s), TopIndex(s);
    SubtreeShape(adj, s);
    if w in s.sides[top] {
      BridgeSym(adj, c, w);
      assert Finished(s, w);
      assert {w, c} == {c, w};
    } else {
      var j := SubtreeExit(adj, s, c, w);
      BackEdgeNoBridge(adj, s, j);
      assert false;
    }
  }

  lemma NotCountedYet(adj: Adjacency, s: Search, found: set<set<NodeId>>)
    requires Popping(adj, s) && BridgesFound(adj, s, found)
    ensures {Child(s), Parent(s)} !in found
  {
    var e := {Child(s), Parent(s)};
    if e in found {
      assert Counted(adj, s, e);
      var u, w :| e == {u, w} && IsBridge(adj, u, w) && Finished(s, u);
      assert u in e;
      StackUnfinished(adj, s, TopIndex(s));
      StackUnfinished(adj, s, TopIndex(s) - 1);
    }
  }

  lemma StackUnfinished(adj: Adjacency, s: Search, i: int)
    requires Shape(adj, s) && 0 <= i < |s.stack|
    ensures !Finished(s, s.stack[i].node)
  {
    assert SplitAt(adj, s, i);
    forall j | 0 <= j < |s.sides| ensures s.stack[i].node !in s.sides[j] { assert SplitAt(adj, s, j); }
  }

  lemma TallyRootDone(adj: Adjacency, s: Search, aps: set<NodeId>, found: set<set<NodeId>>, children: int)
    requires Inv(adj, s) && |s.stack| == 1 && s.stack[0].todo == {}
    requires CutsFound(adj, s, aps, {}) && BridgesFound(adj, s, found) && RootOk(adj, s, children)
    ensures CutsFound(adj, PopRoot(s), aps, {s.stack[0].node}) && BridgesFound(adj, PopRoot(s), found)
    ensures children > 1 <==> IsCut(adj, s.stack[0].node)
  {
    hide TimesAt, HangAt, AttainedAt, BoundedAt, Witnessed, IsCut;
    var t, root := PopRoot(s), s.stack[0].node;
    assert LinkedAt(adj, s.stack, 0) && SplitAt(adj, s, 0) && ExitsAt(adj, s, 0);
    forall x ensures Finished(t, x) <==> Finished(s, x) || x == root {
      assert InSides(s.sides, x) <==> x in s.sides[0];
    }
    forall e | e in found ensures Counted(adj, t, e) {
      var u, w :| e == {u, w} && IsBridge(adj, u, w) && Finished(s, u);
    }
    forall u, w | Finished(t, u) && IsBridge(adj, u, w) ensures {u, w} in found {
      if u == root {
        BridgeSym(adj, u, w);
        assert !On(s.stack, 0, w) && w in s.sides[0];
        assert Finished(s, w);
        assert {w, u} == {u, w};
      }
    }
    if children <= 1 { RootNoCut(adj, s, children); }
  }

  lemma RootNeighbours(adj: Adjacency, s: Search)
    requires Shape(adj, s) && Exits(adj, s) && |s.stack| == 1 && s.stack[0].todo == {}
    ensures var root := s.stack[0].node;
            root in adj && adj[root] <= s.sides[0] <= adj.Keys && root !in s.sides[0]
  {
    assert LinkedAt(adj, s.stack, 0) && SplitAt(adj, s, 0) && ExitsAt(adj, s, 0);
    forall w | w in adj[s.stack[0].node] ensures w in s.sides[0] { assert !On(s.stack, 0, w); }
  }

  lemma RootNoCut(adj: Adjacency, s: Search, children: int)
    requires Inv(adj, s) && |s.stack| == 1 && s.stack[0].todo == {} && RootOk(adj, s, children) && children <= 1
    ensures !IsCut(adj, s.stack[0].node)
  {
    RootNeighbours(adj, s);
    var root := s.stack[0].node;
    if children == 0 {
      if hub :| hub in adj && hub != root {
        NotCutByHub(adj, root, hub);
      }
    } else {
      BranchNoCut(adj, root, s.sides[0]);
    }
  }

  lemma BranchNoCut(adj: Adjacency, root: NodeId, side: set<NodeId>)
    requires Simple(adj) && root in adj && adj[root] <= side <= adj.Keys && root !in side && OneBranch(adj, side)
    ensures !IsCut(adj, root)
  {
    var c :| c in side && forall u | u in side :: Joined(adj, side, c, u);
    forall y | y in adj[root] ensures Joined(adj, adj.Keys - {root}, y, c) {
      JoinedSym(adj, side, c, y);
      JoinedMono(adj, side, adj.Keys - {root}, y, c);
    }
    NotCutByHub(adj, root, c);
  }

  // ---- the algorithm ----

  /** A finished search over all nodes has counted exactly the cut vertices and bridges. */
  lemma AllCounted(adj: Adjacency, s: Search, aps: set<NodeId>, found: set<set<NodeId>>)
    requires Between(adj, s, aps, found) && adj.Keys <= s.disc.Keys
    ensures aps == CutVertices(adj) && found == BridgeEdges(adj)
  {
    forall u | u in adj ensures Finished(s, u) { assert u in s.disc; }
    forall e | e in found ensures e in BridgeEdges(adj) {
      assert Counted(adj, s, e);
    }
    forall e | e in BridgeEdges(adj) ensures e in found {
      var u, v :| u in adj && v in adj[u] && IsBridge(adj, u, v) && e == {u, v};
    }
  }

  /** Everything the search of one tree keeps while its stack is not empty. */
  ghost predicate Searching(adj: Adjacency, s: Search, aps: set<NodeId>, found: set<set<NodeId>>, children: int) {
    s.stack != [] && Inv(adj, s) && CutsFound(adj, s, aps, {}) && BridgesFound(adj, s, found)
      && RootOk(adj, s, children)
  }

  ghost predicate TopReady(s: Search) {
    && |s.sides| == |s.stack| > 0
    && s.stack[TopIndex(s)].node in s.low && s.stack[TopIndex(s)].node in s.disc
    && (s.stack[TopIndex(s)].parent == None <==> |s.stack| == 1)
    && (|s.stack| > 1 ==> Parent(s) in s.low && Parent(s) in s.disc)
  }

  lemma Discovered(adj: Adjacency, s: Search, x: NodeId)
    requires Chain(adj, s.stack) && Split(adj, s) && x in s.disc
    ensures x in adj
  {
    if InSides(s.sides, x) {
      var i :| 0 <= i < |s.sides| && x in s.sides[i];
      assert SplitAt(adj, s, i);
    } else if x !in s.done {
      var j :| 0 <= j < |s.stack| && s.stack[j].node == x;
      assert LinkedAt(adj, s.stack, j);
    }
  }

  lemma TopFacts(adj: Adjacency, s: Search)
    requires Chain(adj, s.stack) && |s.sides| == |s.stack| && Lows(adj, s) && s.stack != []
    ensures TopReady(s) && s.stack[TopIndex(s)].node in adj
    ensures s.stack[TopIndex(s)].todo <= adj[s.stack[TopIndex(s)].node]
  {
    var top := TopIndex(s);
    assert LinkedAt(adj, s.stack, top) && AttainedAt(adj, s, top);
    if top > 0 { assert AttainedAt(adj, s, top - 1); }
  }

  lemma SearchingTop(adj: Adjacency, s: Search, aps: set<NodeId>, found: set<set<NodeId>>, children: int)
    requires Searching(adj, s, aps, found, children)
    ensures s.stack != [] && TopReady(s) && s.stack[TopIndex(s)].node in adj
    ensures s.stack[TopIndex(s)].todo <= adj[s.stack[TopIndex(s)].node]
    ensures forall x | x in s.disc :: x in adj
    ensures forall x | x in s.stack[TopIndex(s)].todo :: x in adj
  {
    hide LinkedAt, SplitAt, ExitsAt, TimesAt, HangAt, AttainedAt, BoundedAt, CutsFound, BridgesFound, RootOk;
    TopFacts(adj, s);
    forall x | x in s.disc { Discovered(adj, s, x); }
  }

  lemma SkipSearches(adj: Adjacency, s: Search, aps: set<NodeId>, found: set<set<NodeId>>, children: int, nxt: NodeId)
    requires Searching(adj, s, aps, found, children) && Some(nxt) == s.stack[TopIndex(s)].parent
    ensures Searching(adj, Skip(s, nxt), aps, found, children)
  {
    SkipKeeps(adj, s, nxt);
    SameTally(adj, s, Skip(s, nxt), aps, found, children);
  }

  lemma SeeSearches(adj: Adjacency, s: Search, aps: set<NodeId>, found: set<set<NodeId>>, children: int, nxt: NodeId)
    requires Searching(adj, s, aps, found, children) && TopReady(s)
    requires nxt in s.stack[TopIndex(s)].todo && Some(nxt) != s.stack[TopIndex(s)].parent && nxt in s.disc
    ensures Searching(adj, See(s, nxt), aps, found, children)
  {
    hide LinkedAt, SplitAt, ExitsAt, TimesAt, HangAt, AttainedAt, BoundedAt, CutsFound, BridgesFound, RootOk;
    SeeKeeps(adj, s, nxt);
    SameTally(adj, s, See(s, nxt), aps, found, children);
  }

  lemma PushSearches(adj: Adjacency, s: Search, aps: set<NodeId>, found: set<set<NodeId>>, children: int, nxt: NodeId)
    requires Searching(adj, s, aps, found, children)
    requires nxt in s.stack[TopIndex(s)].todo && nxt !in s.disc && nxt in adj
    ensures Searching(adj, Push(adj, s, nxt), aps, found, if |s.stack| == 1 then children + 1 else children)
  {
    PushKeeps(adj, s, nxt);
    TallyPush(adj, s, aps, found, nxt);
    TallyPushRoot(adj, s, children, nxt);
  }

  lemma PopSearches(adj: Adjacency, s: Search, aps: set<NodeId>, found: set<set<NodeId>>, children: int)
    requires Searching(adj, s, aps, found, children) && TopReady(s) && |s.stack| > 1 && s.stack[TopIndex(s)].todo == {}
    ensures Searching(adj, Pop(s), CutsAfterPop(s, aps), BridgesAfterPop(s, found), children)
    ensures |BridgesAfterPop(s, found)| == |found| + if s.low[Child(s)] > s.disc[Parent(s)] then 1 else 0
    ensures TopReady(Pop(s)) && Child(s) != Parent(s)
  {
    SubtreeShape(adj, s);
    PopKeeps(adj, s);
    TallyPopCuts(adj, s, aps);
    TallyPopRoot(adj, s, children);
    TallyPopBridges(adj, s, found);
    SearchingTop(adj, Pop(s), CutsAfterPop(s, aps), BridgesAfterPop(s, found), children);
  }

  lemma FewerLeft(adj: Adjacency, disc: map<NodeId, int>, nxt: NodeId, time: int)
    requires nxt in adj && nxt !in disc
    ensures |adj.Keys - disc[nxt := time].Keys| < |adj.Keys - disc.Keys|
  {
    assert adj.Keys - disc[nxt := time].Keys == (adj.Keys - disc.Keys) - {nxt};
  }

  /** The inner loop: take neighbours of the top node until one is new. */
  method Advance(
    adj: Adjacency, stack0: seq<Frame>, disc0: map<NodeId, int>, low0: map<NodeId, int>, timer0: int, children0: int,
    ghost s0: Search, ghost aps: set<NodeId>, ghost found: set<set<NodeId>>
  ) returns (
    stack: seq<Frame>, disc: map<NodeId, int>, low: map<NodeId, int>, timer: int, children: int, advanced: bool,
    ghost s: Search
  )
    requires Searching(adj, s0, aps, found, children0) && s0.stack != []
    requires s0.stack == stack0 && s0.disc == disc0 && s0.low == low0 && s0.timer == timer0
    ensures Searching(adj, s, aps, found, children) && s.stack != []
    ensures s.stack == stack && s.disc == disc && s.low == low && s.timer == timer && s.done == s0.done
    ensures stack[0].node == stack0[0].node
    ensures if advanced then |adj.Keys - disc.Keys| < |adj.Keys - disc0.Keys| && disc0.Keys <= disc.Keys
            else disc == disc0 && |stack| == |stack0| && stack[|stack| - 1].todo == {}
  {
    hide Searching;
    SearchingTop(adj, s0, aps, found, children0);
    stack, disc, low, timer, children, s, advanced := stack0, disc0, low0, timer0, children0, s0, false;
    var top := |stack| - 1;
    var node, parent := stack[top].node, stack[top].parent;
    while stack[top].todo != {} && !advanced
      invariant s.stack == stack && s.disc == disc && s.low == low && s.timer == timer && s.done == s0.done
      invariant Searching(adj, s, aps, found, children)
      invariant |stack| > top && stack[0].node == stack0[0].node
      invariant !advanced ==>
        |stack| == |stack0| && disc == disc0 && stack[top].node == node && stack[top].parent == parent
      invariant advanced ==> |adj.Keys - disc.Keys| < |adj.Keys - disc0.Keys| && disc0.Keys <= disc.Keys
      decreases !advanced, stack[top].todo
    {
      SearchingTop(adj, s, aps, found, children);
      var nxt: NodeId :| nxt in stack[top].todo;
      if Some(nxt) == parent {
        SkipSearches(adj, s, aps, found, children, nxt);
        s := Skip(s, nxt);
        stack := Taken(stack, nxt);
      } else if nxt !in disc {
        PushSearches(adj, s, aps, found, children, nxt);
        s := Push(adj, s, nxt);
        if parent == None {
          children := children + 1;
        }
        FewerLeft(adj, disc, nxt, timer);
        disc, low, timer := disc[nxt := timer], low[nxt := timer], timer + 1;
        stack := Taken(stack, nxt) + [Frame(nxt, Some(node), adj[nxt])];
        advanced := true;
      } else {
        SeeSearches(adj, s, aps, found, children, nxt);
        s := See(s, nxt);
        low := low[node := Min(low[node], disc[nxt])];
        stack := Taken(stack, nxt);
      }
    }
  }

  /** Between two trees: nothing is on the stack. */
  ghost predicate Between(adj: Adjacency, s: Search, aps: set<NodeId>, found: set<set<NodeId>>) {
    s.stack == [] && Inv(adj, s) && CutsFound(adj, s, aps, {}) && BridgesFound(adj, s, found)
  }

  lemma Unstarted(adj: Adjacency)
    requires Simple(adj)
    ensures Between(adj, Search([], [], {}, map[], map[], 0), {}, {})
  {
  }

  lemma StartSearches(adj: Adjacency, s: Search, aps: set<NodeId>, found: set<set<NodeId>>, root: NodeId)
    requires Between(adj, s, aps, found) && root in adj && root !in s.disc
    ensures Searching(adj, Start(adj, s, root), aps, found, 0)
  {
    StartKeeps(adj, s, root);
    TallyStart(adj, s, aps, found, root);
  }

  lemma RootSearched(adj: Adjacency, s: Search, aps: set<NodeId>, found: set<set<NodeId>>, children: int)
    requires Searching(adj, s, aps, found, children) && |s.stack| == |s.sides| == 1 && s.stack[0].todo == {}
    ensures Between(adj, PopRoot(s), if children > 1 then aps + {s.stack[0].node} else aps, found)
  {
    TallyRootDone(adj, s, aps, found, children);
    PopRootKeeps(adj, s);
    assert LinkedAt(adj, s.stack, 0);
  }

  /** Leave a node whose neighbours are exhausted for its parent, and judge the parent and the edge. */
  method Leave(
    adj: Adjacency, stack0: seq<Frame>, disc: map<NodeId, int>, low0: map<NodeId, int>, aps0: set<NodeId>,
    bridges0: nat, ghost s0: Search, ghost found0: set<set<NodeId>>, ghost children: int
  ) returns (
    stack: seq<Frame>, low: map<NodeId, int>, aps: set<NodeId>, bridges: nat, ghost s: Search,
    ghost found: set<set<NodeId>>
  )
    requires Searching(adj, s0, aps0, found0, children) && |stack0| > 1 && stack0[|stack0| - 1].todo == {}
    requires s0.stack == stack0 && s0.disc == disc && s0.low == low0 && |found0| == bridges0
    ensures Searching(adj, s, aps, found, children) && |found| == bridges
    ensures s == s0.(stack := stack, low := low, sides := s.sides) && stack == stack0[..|stack0| - 1]
  {
    hide Searching;
    SearchingTop(adj, s0, aps0, found0, children);
    PopSearches(adj, s0, aps0, found0, children);
    s, found := Pop(s0), BridgesAfterPop(s0, found0);
    var node := stack0[|stack0| - 1].node;
    stack := stack0[..|stack0| - 1];
    var p := stack[|stack| - 1].node;
    low := low0[p := Min(low0[p], low0[node])];
    aps, bridges := aps0, bridges0;
    if stack[|stack| - 1].parent != None && low[node] >= disc[p] {
      aps := aps + {p};
    }
    if low[node] > disc[p] {
      bridges := bridges + 1;
    }
  }

  method ArticulationPointsAndBridges(nodes: seq<NodeId>, adj: Adjacency) returns (points: nat, bridges: nat)
    requires Simple(adj) && (forall n :: n in nodes <==> n in adj)
    ensures points == |CutVertices(adj)|
    ensures bridges == |BridgeEdges(adj)|
  {
    hide Searching, Between, Simple, CutVertices, BridgeEdges;
    var disc: map<NodeId, int>, low: map<NodeId, int>, timer := map[], map[], 0;
    var aps: set<NodeId> := {};
    bridges := 0;
    ghost var found: set<set<NodeId>>, s := {}, Search([], [], {}, map[], map[], 0);
    Unstarted(adj);
    for i := 0 to |nodes|
      invariant s.stack == [] && s.disc == disc && s.low == low && s.timer == timer
      invariant Between(adj, s, aps, found) && |found| == bridges
      invariant forall k | 0 <= k < i :: nodes[k] in disc
    {
      var root := nodes[i];
      if root in disc {
        continue;
      }
      StartSearches(adj, s, aps, found, root);
      s := Start(adj, s, root);
      var stack := [Frame(root, None, adj[root])];
      disc, low, timer := disc[root := timer], low[root := timer], timer + 1;
      var rootChildren := 0;
      ghost var known := disc.Keys;
      while stack != []
        invariant s.stack == stack && s.disc == disc && s.low == low && s.timer == timer && known <= disc.Keys
        invariant |found| == bridges
        invariant stack != [] ==> stack[0].node == root && Searching(adj, s, aps, found, rootChildren)
        invariant stack == [] ==> Between(adj, s, if rootChildren > 1 then aps + {root} else aps, found)
        decreases |adj.Keys - disc.Keys|, |stack|
      {
        SearchingTop(adj, s, aps, found, rootChildren);
        var advanced;
        stack, disc, low, timer, rootChildren, advanced, s :=
          Advance(adj, stack, disc, low, timer, rootChildren, s, aps, found);
        if !advanced {
          SearchingTop(adj, s, aps, found, rootChildren);
          if |stack| == 1 {
            RootSearched(adj, s, aps, found, rootChildren);
            s := PopRoot(s);
            stack := [];
          } else {
            stack, low, aps, bridges, s, found := Leave(adj, stack, disc, low, aps, bridges, s, found, rootChildren);
          }
        }
      }
      if rootChildren > 1 {
        aps := aps + {root};
      }
    }
    AllCounted(adj, s, aps, found);
    points := |aps|;
  }
}
