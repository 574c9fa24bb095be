/** The depth-first search behind the low-link loop, with a set of remaining
    neighbours where the source keeps an iterator: any element may come next, so
    what is proved covers every iteration order.

    The invariant splits what has been discovered into `done` (earlier trees), the
    nodes on the stack, and for each stack position i a set `sides[i]` of finished
    descendants that hang off stack[i] but not off stack[i + 1]. It says where
    examined edges lead, that discovery times grow along the stack, and that low[v]
    is attained by an edge out of v's subtree and bounds every such edge. Each step
    of the loop keeps it. */
module DepthFirst {
  import opened Graphs

  import opened Basics

  datatype Frame = Frame(node: NodeId, parent: Option<NodeId>, todo: set<NodeId>)

  datatype Search = Search(
    stack: seq<Frame>,
    sides: seq<set<NodeId>>,
    done: set<NodeId>,
    disc: map<NodeId, int>,
    low: map<NodeId, int>,
    timer: int)

  function Min(a: int, b: int): int {
    if b < a then b else a
  }

  // ---- the invariant ----

  /** w is one of the first n nodes on the stack. */
  ghost predicate On(stack: seq<Frame>, n: int, w: NodeId) {
    exists j :: 0 <= j < n && j < |stack| && stack[j].node == w
  }

  ghost predicate InSides(sides: seq<set<NodeId>>, u: NodeId) {
    exists i :: 0 <= i < |sides| && u in sides[i]
  }

  ghost predicate Finished(s: Search, u: NodeId) {
    u in s.done || InSides(s.sides, u)
  }

  ghost predicate LinkedAt(adj: Adjacency, stack: seq<Frame>, i: int)
    requires 0 <= i < |stack|
  {
    && stack[i].node in adj
    && stack[i].todo <= adj[stack[i].node]
    && (forall j | 0 <= j < i :: stack[j].node != stack[i].node)
    && stack[i].parent == (if i == 0 then None else Some(stack[i - 1].node))
    && (i > 0 ==> stack[i - 1].node in adj && stack[i].node in adj[stack[i - 1].node])
  }

  ghost predicate Chain(adj: Adjacency, stack: seq<Frame>) {
    forall i | 0 <= i < |stack| :: LinkedAt(adj, stack, i)
  }

  ghost predicate SplitAt(adj: Adjacency, s: Search, i: int)
    requires 0 <= i < |s.stack| == |s.sides|
  {
    && s.sides[i] <= adj.Keys
    && s.sides[i] !! s.done
    && s.stack[i].node !in s.done
    && (forall j | 0 <= j < i :: s.sides[i] !! s.sides[j])
    && (forall j | 0 <= j < |s.stack| :: s.stack[j].node !in s.sides[i])
  }

  ghost predicate Split(adj: Adjacency, s: Search) {
    && |s.sides| == |s.stack|
    && s.done <= adj.Keys
    && (forall i | 0 <= i < |s.stack| :: SplitAt(adj, s, i))
    && (forall x :: x in s.disc <==> Finished(s, x) || On(s.stack, |s.stack|, x))
  }

  ghost predicate Shape(adj: Adjacency, s: Search) {
    Simple(adj) && Chain(adj, s.stack) && Split(adj, s)
  }

  /** Where the edges examined so far can lead. */
  ghost predicate ExitsAt(adj: Adjacency, s: Search, i: int)
    requires 0 <= i < |s.stack| == |s.sides|
  {
    && (forall u, w | u in s.sides[i] && u in adj && w in adj[u] :: w in s.sides[i] || On(s.stack, i + 1, w))
    && (forall w | s.stack[i].node in adj && w in adj[s.stack[i].node] && w !in s.stack[i].todo ::
          w in s.sides[i] || On(s.stack, i, w) || (i + 1 < |s.stack| && w == s.stack[i + 1].node))
  }

  ghost predicate Exits(adj: Adjacency, s: Search)
    requires |s.sides| == |s.stack|
  {
    && (forall u, w | u in s.done && u in adj && w in adj[u] :: w in s.done)
    && (forall i | 0 <= i < |s.stack| :: ExitsAt(adj, s, i))
  }

  ghost predicate TimesAt(s: Search, i: int)
    requires 0 <= i < |s.stack| == |s.sides|
  {
    && s.stack[i].node in s.disc
    && (forall j | 0 <= j < i :: s.stack[j].node in s.disc && s.disc[s.stack[j].node] < s.disc[s.stack[i].node])
    && (forall u | u in s.sides[i] :: u in s.disc && s.disc[s.stack[i].node] < s.disc[u])
  }

  ghost predicate Times(s: Search)
    requires |s.sides| == |s.stack|
  {
    && (forall x | x in s.disc :: s.disc[x] < s.timer)
    && (forall i | 0 <= i < |s.stack| :: TimesAt(s, i))
  }

  /** Finished descendants hang together below their stack node. */
  ghost predicate HangAt(adj: Adjacency, node: NodeId, side: set<NodeId>) {
    forall u | u in side :: Joined(adj, side + {node}, node, u)
  }

  ghost predicate Hang(adj: Adjacency, s: Search)
    requires |s.sides| == |s.stack|
  {
    forall i | 0 <= i < |s.stack| :: HangAt(adj, s.stack[i].node, s.sides[i])
  }

  /** Some node discovered at time l is one edge away from the subtree `side` of
      `frame`, by an edge other than the tree edge to the parent. */
  ghost predicate Witnessed(
    adj: Adjacency, node: NodeId, parent: Option<NodeId>, side: set<NodeId>, disc: map<NodeId, int>, l: int
  ) {
    exists u, w :: u in side + {node} && u in adj && w in adj[u] && w in disc && disc[w] == l
      && !(u == node && Some(w) == parent)
  }

  /** low[v] is the discovery time of such a node, or v's own ... */
  ghost predicate AttainedAt(adj: Adjacency, s: Search, i: int)
    requires 0 <= i < |s.stack| == |s.sides|
  {
    var v := s.stack[i].node;
    && v in s.low && v in s.disc && s.low[v] <= s.disc[v]
    && (s.low[v] == s.disc[v] || Witnessed(adj, v, s.stack[i].parent, s.sides[i], s.disc, s.low[v]))
  }

  /** ... and no stack node that v's subtree reaches so is earlier. */
  ghost predicate BoundedAt(adj: Adjacency, s: Search, i: int)
    requires 0 <= i < |s.stack| == |s.sides|
  {
    && s.stack[i].node in s.low
    && var l := s.low[s.stack[i].node];
    && (forall j, u | 0 <= j < i && u in s.sides[i] && u in adj && s.stack[j].node in adj[u] ::
          s.stack[j].node in s.disc && l <= s.disc[s.stack[j].node])
    && (forall j |
          0 <= j < i - 1 && s.stack[i].node in adj && s.stack[j].node in adj[s.stack[i].node]
          && s.stack[j].node !in s.stack[i].todo ::
          s.stack[j].node in s.disc && l <= s.disc[s.stack[j].node])
  }

  ghost predicate Lows(adj: Adjacency, s: Search)
    requires |s.sides| == |s.stack|
  {
    forall i | 0 <= i < |s.stack| :: AttainedAt(adj, s, i) && BoundedAt(adj, s, i)
  }

  ghost predicate Inv(adj: Adjacency, s: Search) {
    Shape(adj, s) && Exits(adj, s) && Times(s) && Hang(adj, s) && Lows(adj, s)
  }

  // ---- the stack is a path ----

  ghost function Nodes(stack: seq<Frame>): set<NodeId> {
    set f | f in stack :: f.node
  }

  lemma {:induction false} Along(adj: Adjacency, stack: seq<Frame>, i: int, j: int)
    requires Simple(adj) && Chain(adj, stack) && 0 <= i <= j < |stack|
    ensures Joined(adj, Nodes(stack[..j + 1]), stack[i].node, stack[j].node)
    decreases j - i
  {
    assert LinkedAt(adj, stack, i);
    assert forall k | 0 <= k <= j :: stack[..j + 1][k] == stack[k];
    assert stack[i] in stack[..j + 1] && stack[j] in stack[..j + 1];
    if i == j {
      JoinedSelf(adj, Nodes(stack[..j + 1]), stack[i].node);
    } else {
      assert stack[i + 1] in stack[..j + 1];
      assert LinkedAt(adj, stack, i + 1);
      JoinedEdge(adj, Nodes(stack[..j + 1]), stack[i].node, stack[i + 1].node);
      Along(adj, stack, i + 1, j);
      JoinedTrans(adj, Nodes(stack[..j + 1]), stack[i].node, stack[i + 1].node, stack[j].node);
    }
  }

  /** Along the stack below a node that is not in that part of it. */
  lemma AlongWithout(adj: Adjacency, stack: seq<Frame>, i: int, j: int, v: NodeId)
    requires Simple(adj) && Chain(adj, stack) && 0 <= i <= j < |stack|
    requires !On(stack, j + 1, v)
    ensures Joined(adj, adj.Keys - {v}, stack[i].node, stack[j].node)
  {
    Along(adj, stack, i, j);
    forall x | x in Nodes(stack[..j + 1]) ensures x in adj.Keys - {v} {
      var f :| f in stack[..j + 1] && f.node == x;
      var k :| 0 <= k < j + 1 && stack[..j + 1][k] == f;
      assert stack[k].node == x && LinkedAt(adj, stack, k);
    }
    JoinedMono(adj, Nodes(stack[..j + 1]), adj.Keys - {v}, stack[i].node, stack[j].node);
  }

  function TopIndex(s: Search): int {
    |s.stack| - 1
  }

  // ---- the steps of the loop ----

  function Start(adj: Adjacency, s: Search, root: NodeId): Search
    requires root in adj
  {
    Search([Frame(root, None, adj[root])], [{}], s.done, s.disc[root := s.timer], s.low[root := s.timer], s.timer + 1)
  }

  /** The top frame once nxt has been taken from its iterator. */
  function Taken(stack: seq<Frame>, nxt: NodeId): seq<Frame>
    requires stack != []
  {
    var top := |stack| - 1;
    stack[top := stack[top].(todo := stack[top].todo - {nxt})]
  }

  function Skip(s: Search, nxt: NodeId): Search
    requires s.stack != []
  {
    s.(stack := Taken(s.stack, nxt))
  }

  function Lower(low: map<NodeId, int>, v: NodeId, l: int): map<NodeId, int>
    requires v in low
  {
    low[v := Min(low[v], l)]
  }

  function See(s: Search, nxt: NodeId): Search
    requires s.stack != [] && nxt in s.disc && s.stack[|s.stack| - 1].node in s.low
  {
    s.(stack := Taken(s.stack, nxt), low := Lower(s.low, s.stack[|s.stack| - 1].node, s.disc[nxt]))
  }

  function Push(adj: Adjacency, s: Search, nxt: NodeId): Search
    requires s.stack != [] && nxt in adj
  {
    s.(stack := Taken(s.stack, nxt) + [Frame(nxt, Some(s.stack[|s.stack| - 1].node), adj[nxt])],
       sides := s.sides + [{}],
       disc := s.disc[nxt := s.timer], low := s.low[nxt := s.timer], timer := s.timer + 1)
  }

  /** Pop a finished child into its parent's side. */
  function Pop(s: Search): Search
    requires |s.sides| == |s.stack| > 1
    requires s.stack[|s.stack| - 1].node in s.low && s.stack[|s.stack| - 2].node in s.low
  {
    var top := |s.stack| - 1;
    s.(stack := s.stack[..top],
       sides := s.sides[..top - 1] + [s.sides[top - 1] + s.sides[top] + {s.stack[top].node}],
       low := Lower(s.low, s.stack[top - 1].node, s.low[s.stack[top].node]))
  }

  function PopRoot(s: Search): Search
    requires |s.sides| == |s.stack| == 1
  {
    s.(stack := [], sides := [], done := s.done + s.sides[0] + {s.stack[0].node})
  }

  lemma StartKeeps(adj: Adjacency, s: Search, root: NodeId)
    requires Inv(adj, s) && s.stack == [] && root in adj && root !in s.disc
    ensures Inv(adj, Start(adj, s, root))
  {
    var t := Start(adj, s, root);
    assert Split(adj, t) by {
      assert On(t.stack, 1, root) by { assert t.stack[0].node == root; }
      assert forall x :: x in s.disc <==> Finished(s, x) || On(s.stack, 0, x);
      assert forall x :: Finished(t, x) <==> x in s.done;
    }
    assert AttainedAt(adj, t, 0);
  }

  lemma OnTaken(stack: seq<Frame>, nxt: NodeId)
    requires stack != []
    ensures forall n, x :: On(Taken(stack, nxt), n, x) <==> On(stack, n, x)
  {
    var t := Taken(stack, nxt);
    forall n, x ensures On(t, n, x) <==> On(stack, n, x) {
      if On(t, n, x) {
        var j :| 0 <= j < n && j < |t| && t[j].node == x;
        assert stack[j].node == x;
      }
      if On(stack, n, x) {
        var j :| 0 <= j < n && j < |stack| && stack[j].node == x;
        assert t[j].node == x;
      }
    }
  }

  lemma TakenShape(adj: Adjacency, s: Search, nxt: NodeId)
    requires Shape(adj, s) && s.stack != []
    ensures Shape(adj, Skip(s, nxt))
  {
    OnTaken(s.stack, nxt);
    var t := Skip(s, nxt);
    forall i | 0 <= i < |t.stack| ensures LinkedAt(adj, t.stack, i) && SplitAt(adj, t, i) {
      assert LinkedAt(adj, s.stack, i) && SplitAt(adj, s, i);
    }
    assert forall x :: Finished(t, x) <==> Finished(s, x);
  }

  lemma TakenExits(adj: Adjacency, s: Search, nxt: NodeId)
    requires Shape(adj, s) && s.stack != [] && Exits(adj, s)
    requires nxt in s.sides[|s.stack| - 1] || On(s.stack, |s.stack| - 1, nxt)
    ensures Shape(adj, Skip(s, nxt)) && Exits(adj, Skip(s, nxt))
  {
    TakenShape(adj, s, nxt);
    OnTaken(s.stack, nxt);
    var t := Skip(s, nxt);
    forall i | 0 <= i < |t.stack| ensures ExitsAt(adj, t, i) {
      assert LinkedAt(adj, t.stack, i) && SplitAt(adj, t, i) && ExitsAt(adj, s, i);
    }
  }

  /** An already discovered neighbour of the top node is on the stack or in the
      top node's own subtree: there are no cross edges. */
  lemma NoCrossEdge(adj: Adjacency, s: Search, nxt: NodeId)
    requires Shape(adj, s) && Exits(adj, s) && s.stack != []
    requires s.stack[|s.stack| - 1].node in adj && nxt in adj[s.stack[|s.stack| - 1].node] && nxt in s.disc
    ensures nxt in s.sides[|s.stack| - 1] || On(s.stack, |s.stack| - 1, nxt)
  {
    var top := |s.stack| - 1;
    var v := s.stack[top].node;
    assert LinkedAt(adj, s.stack, top) && SplitAt(adj, s, top);
    assert nxt != v && v in adj[nxt];
    if On(s.stack, |s.stack|, nxt) {
      var j :| 0 <= j < |s.stack| && s.stack[j].node == nxt;
      assert j < top;
    } else if nxt in s.done {
      assert false;
    } else {
      var i :| 0 <= i < |s.sides| && nxt in s.sides[i];
      assert SplitAt(adj, s, i) && ExitsAt(adj, s, i);
      assert v in s.sides[i] || On(s.stack, i + 1, v);
      var j :| 0 <= j < i + 1 && s.stack[j].node == v;
      assert j == top;
    }
  }

  /** Taking from the iterator and lowering low leave times and subtrees alone. */
  lemma TakenTimes(adj: Adjacency, s: Search, t: Search, nxt: NodeId)
    requires s.stack != [] && |s.sides| == |s.stack| && Times(s) && Hang(adj, s)
    requires t == Skip(s, nxt).(low := t.low)
    ensures Times(t) && Hang(adj, t)
  {
    forall i | 0 <= i < |t.stack| ensures TimesAt(t, i) && HangAt(adj, t.stack[i].node, t.sides[i]) {
      assert TimesAt(s, i) && HangAt(adj, s.stack[i].node, s.sides[i]);
    }
  }

  lemma SkipKeeps(adj: Adjacency, s: Search, nxt: NodeId)
    requires Inv(adj, s) && s.stack != []
    requires Some(nxt) == s.stack[|s.stack| - 1].parent
    ensures Inv(adj, Skip(s, nxt))
  {
    var top := |s.stack| - 1;
    assert LinkedAt(adj, s.stack, top);
    assert On(s.stack, top, nxt) by { assert s.stack[top - 1].node == nxt; }
    TakenExits(adj, s, nxt);
    TakenTimes(adj, s, Skip(s, nxt), nxt);
    SkipLows(adj, s, nxt);
  }

  lemma SkipLows(adj: Adjacency, s: Search, nxt: NodeId)
    requires s.stack != [] && |s.sides| == |s.stack| && Chain(adj, s.stack) && Lows(adj, s)
    requires Some(nxt) == s.stack[|s.stack| - 1].parent
    ensures Lows(adj, Skip(s, nxt))
  {
    var top := |s.stack| - 1;
    var t := Skip(s, nxt);
    forall i | 0 <= i < |t.stack| ensures AttainedAt(adj, t, i) && BoundedAt(adj, t, i) {
      assert AttainedAt(adj, s, i) && BoundedAt(adj, s, i);
      if i == top {
        assert LinkedAt(adj, s.stack, top) && LinkedAt(adj, s.stack, top - 1);
      }
    }
  }

  lemma SeeKeeps(adj: Adjacency, s: Search, nxt: NodeId)
    requires Inv(adj, s) && s.stack != []
    requires nxt in s.stack[|s.stack| - 1].todo && Some(nxt) != s.stack[|s.stack| - 1].parent && nxt in s.disc
    requires s.stack[|s.stack| - 1].node in s.low
    ensures Inv(adj, See(s, nxt))
  {
    assert LinkedAt(adj, s.stack, |s.stack| - 1);
    NoCrossEdge(adj, s, nxt);
    TakenExits(adj, s, nxt);
    TakenTimes(adj, s, See(s, nxt), nxt);
    SeeShape(adj, s, nxt);
    SeeLows(adj, s, nxt);
  }

  lemma SeeShape(adj: Adjacency, s: Search, nxt: NodeId)
    requires s.stack != [] && Shape(adj, Skip(s, nxt)) && Exits(adj, Skip(s, nxt))
    requires nxt in s.disc && s.stack[|s.stack| - 1].node in s.low
    ensures Shape(adj, See(s, nxt)) && Exits(adj, See(s, nxt))
  {
    var k := Skip(s, nxt);
    var t := See(s, nxt);
    forall i | 0 <= i < |t.stack| ensures LinkedAt(adj, t.stack, i) && SplitAt(adj, t, i) && ExitsAt(adj, t, i) {
      assert LinkedAt(adj, k.stack, i) && SplitAt(adj, k, i) && ExitsAt(adj, k, i);
    }
    assert forall x :: Finished(t, x) <==> Finished(k, x);
  }

  lemma SeeLows(adj: Adjacency, s: Search, nxt: NodeId)
    requires s.stack != [] && |s.sides| == |s.stack| && Chain(adj, s.stack) && Lows(adj, s)
    requires nxt in s.stack[|s.stack| - 1].todo && Some(nxt) != s.stack[|s.stack| - 1].parent && nxt in s.disc
    requires s.stack[|s.stack| - 1].node in s.low
    ensures Lows(adj, See(s, nxt))
  {
    var top := |s.stack| - 1;
    var t := See(s, nxt);
    forall i | 0 <= i < |t.stack| ensures AttainedAt(adj, t, i) && BoundedAt(adj, t, i) {
      assert AttainedAt(adj, s, i) && BoundedAt(adj, s, i) && LinkedAt(adj, s.stack, top);
      if i == top {
        SeeAttained(adj, s, nxt);
      } else {
        assert t.stack[i] == s.stack[i] && s.stack[i].node != s.stack[top].node;
      }
    }
  }

  lemma SeeAttained(adj: Adjacency, s: Search, nxt: NodeId)
    requires s.stack != [] && |s.sides| == |s.stack|
    requires LinkedAt(adj, s.stack, |s.stack| - 1) && AttainedAt(adj, s, |s.stack| - 1)
    requires nxt in s.stack[|s.stack| - 1].todo && Some(nxt) != s.stack[|s.stack| - 1].parent && nxt in s.disc
    ensures AttainedAt(adj, See(s, nxt), |s.stack| - 1)
  {
    var top := |s.stack| - 1;
    var v := s.stack[top].node;
    assert v in s.sides[top] + {v} && nxt in adj[v];
    assert Witnessed(adj, v, s.stack[top].parent, s.sides[top], s.disc, s.disc[nxt]);
  }

  // ---- descending ----

  lemma OnPushed(stack: seq<Frame>, nxt: NodeId, frame: Frame)
    requires stack != []
    ensures forall n, x | n <= |stack| :: On(Taken(stack, nxt) + [frame], n, x) <==> On(stack, n, x)
    ensures forall x :: On(Taken(stack, nxt) + [frame], |stack| + 1, x) <==> On(stack, |stack|, x) || x == frame.node
  {
    var t := Taken(stack, nxt);
    var s := t + [frame];
    OnTaken(stack, nxt);
    forall n, x | n <= |stack| ensures On(s, n, x) <==> On(t, n, x) {
      if On(s, n, x) {
        var j :| 0 <= j < n && j < |s| && s[j].node == x;
        assert t[j].node == x;
      }
      if On(t, n, x) {
        var j :| 0 <= j < n && j < |t| && t[j].node == x;
        assert s[j].node == x;
      }
    }
    forall x ensures On(s, |s|, x) <==> On(t, |t|, x) || x == frame.node {
      if On(s, |s|, x) {
        var j :| 0 <= j < |s| && s[j].node == x;
        if j < |t| { assert t[j].node == x; }
      }
      if On(t, |t|, x) {
        var j :| 0 <= j < |t| && t[j].node == x;
        assert s[j].node == x;
      }
      assert s[|t|].node == frame.node;
    }
  }

  lemma PushAt(adj: Adjacency, s: Search, nxt: NodeId, i: int)
    requires |s.sides| == |s.stack| > 0 && 0 <= i < |s.stack| && nxt in adj && nxt in s.stack[TopIndex(s)].todo
    requires LinkedAt(adj, s.stack, i) && SplitAt(adj, s, i) && ExitsAt(adj, s, i) && nxt !in s.sides[i]
    ensures var t := Push(adj, s, nxt); LinkedAt(adj, t.stack, i) && SplitAt(adj, t, i) && ExitsAt(adj, t, i)
  {
    OnPushed(s.stack, nxt, Push(adj, s, nxt).stack[|s.stack|]);
  }

  lemma PushTop(adj: Adjacency, s: Search, nxt: NodeId)
    requires |s.sides| == |s.stack| > 0 && nxt in adj && nxt in s.stack[TopIndex(s)].todo
    requires LinkedAt(adj, s.stack, TopIndex(s)) && nxt !in s.done && !On(s.stack, |s.stack|, nxt)
    ensures var t := Push(adj, s, nxt); var n := |s.stack|;
            LinkedAt(adj, t.stack, n) && SplitAt(adj, t, n) && ExitsAt(adj, t, n)
  {
    var t := Push(adj, s, nxt);
    forall j | 0 <= j < |s.stack| ensures t.stack[j].node != nxt { assert s.stack[j].node == t.stack[j].node; }
  }

  lemma PushShape(adj: Adjacency, s: Search, nxt: NodeId)
    requires Shape(adj, s) && Exits(adj, s) && s.stack != []
    requires nxt in s.stack[|s.stack| - 1].todo && nxt !in s.disc && nxt in adj
    ensures Shape(adj, Push(adj, s, nxt)) && Exits(adj, Push(adj, s, nxt))
  {
    hide LinkedAt, SplitAt, ExitsAt, On, InSides;
    var t := Push(adj, s, nxt);
    var n := |s.stack|;
    assert !Finished(s, nxt) && !On(s.stack, n, nxt);
    assert LinkedAt(adj, s.stack, n - 1);
    PushTop(adj, s, nxt);
    forall i | 0 <= i < n ensures LinkedAt(adj, t.stack, i) && SplitAt(adj, t, i) && ExitsAt(adj, t, i) {
      assert LinkedAt(adj, s.stack, i) && SplitAt(adj, s, i) && ExitsAt(adj, s, i);
      if nxt in s.sides[i] { InOneSide(s, i, nxt); }
      PushAt(adj, s, nxt, i);
    }
    OnPushed(s.stack, nxt, t.stack[n]);
    forall x ensures Finished(t, x) <==> Finished(s, x) { PushFinished(adj, s, nxt, x); }
  }

  lemma InOneSide(s: Search, i: int, x: NodeId)
    requires 0 <= i < |s.sides| && x in s.sides[i]
    ensures Finished(s, x)
  {
  }

  lemma PushTimes(adj: Adjacency, s: Search, nxt: NodeId)
    requires s.stack != [] && |s.sides| == |s.stack| && Times(s) && Hang(adj, s)
    requires nxt !in s.disc && nxt in adj
    ensures Times(Push(adj, s, nxt)) && Hang(adj, Push(adj, s, nxt))
  {
    var t := Push(adj, s, nxt);
    var n := |s.stack|;
    forall i | 0 <= i < |t.stack| ensures TimesAt(t, i) && HangAt(adj, t.stack[i].node, t.sides[i]) {
      if i < n {
        assert TimesAt(s, i) && HangAt(adj, s.stack[i].node, s.sides[i]);
      } else {
        forall j | 0 <= j < n ensures t.stack[j].node in t.disc && t.disc[t.stack[j].node] < s.timer {
          assert TimesAt(s, j);
        }
      }
    }
  }

  /** Discovering more keeps a witness. */
  lemma WitnessKept(
    adj: Adjacency, node: NodeId, parent: Option<NodeId>, side: set<NodeId>, disc: map<NodeId, int>, l: int,
    nxt: NodeId, time: int
  )
    requires Witnessed(adj, node, parent, side, disc, l) && nxt !in disc
    ensures Witnessed(adj, node, parent, side, disc[nxt := time], l)
  {
    var u, w :| u in side + {node} && u in adj && w in adj[u] && w in disc && disc[w] == l
      && !(u == node && Some(w) == parent);
    var d := disc[nxt := time];
    assert w in d && d[w] == l;
  }

  lemma PushLows(adj: Adjacency, s: Search, nxt: NodeId)
    requires s.stack != [] && |s.sides| == |s.stack| && Lows(adj, s) && Times(s)
    requires nxt !in s.disc && nxt in adj
    ensures Lows(adj, Push(adj, s, nxt))
  {
    var t := Push(adj, s, nxt);
    var n := |s.stack|;
    forall i | 0 <= i < |t.stack| ensures AttainedAt(adj, t, i) && BoundedAt(adj, t, i) {
      if i < n {
        assert AttainedAt(adj, s, i) && BoundedAt(adj, s, i) && TimesAt(s, i);
        var v := s.stack[i].node;
        if s.low[v] != s.disc[v] {
          WitnessKept(adj, v, s.stack[i].parent, s.sides[i], s.disc, s.low[v], nxt, s.timer);
        }
      }
    }
  }

  lemma PushKeeps(adj: Adjacency, s: Search, nxt: NodeId)
    requires Inv(adj, s) && s.stack != []
    requires nxt in s.stack[|s.stack| - 1].todo && nxt !in s.disc && nxt in adj
    ensures Inv(adj, Push(adj, s, nxt))
  {
    PushShape(adj, s, nxt);
    PushTimes(adj, s, nxt);
    PushLows(adj, s, nxt);
  }

  lemma PushFinished(adj: Adjacency, s: Search, nxt: NodeId, x: NodeId)
    requires s.stack != [] && nxt in adj
    ensures Finished(Push(adj, s, nxt), x) <==> Finished(s, x)
  {
    var t := Push(adj, s, nxt);
    if InSides(s.sides, x) {
      var i :| 0 <= i < |s.sides| && x in s.sides[i];
      assert x in t.sides[i];
    }
    if InSides(t.sides, x) {
      var i :| 0 <= i < |t.sides| && x in t.sides[i];
      assert x in s.sides[i];
    }
  }

  // ---- returning to the parent ----

  lemma OnPrefix(stack: seq<Frame>, m: nat)
    requires m <= |stack|
    ensures forall n, x | n <= m :: On(stack[..m], n, x) <==> On(stack, n, x)
  {
    var t := stack[..m];
    forall n, x | n <= m ensures On(t, n, x) <==> On(stack, n, x) {
      if On(t, n, x) {
        var j :| 0 <= j < n && j < |t| && t[j].node == x;
        assert stack[j].node == x;
      }
      if On(stack, n, x) {
        var j :| 0 <= j < n && j < |stack| && stack[j].node == x;
        assert t[j].node == x;
      }
    }
  }

  lemma OnLast(stack: seq<Frame>, n: nat, x: NodeId)
    requires n < |stack|
    ensures On(stack, n + 1, x) <==> On(stack, n, x) || x == stack[n].node
  {
    if On(stack, n + 1, x) {
      var j :| 0 <= j < n + 1 && j < |stack| && stack[j].node == x;
      if j < n { assert stack[j].node == x; }
    }
    if On(stack, n, x) {
      var j :| 0 <= j < n && j < |stack| && stack[j].node == x;
      assert stack[j].node == x;
    }
    assert stack[n].node == stack[n].node;
  }

  ghost predicate Popping(adj: Adjacency, s: Search) {
    && Inv(adj, s) && |s.stack| > 1 && s.stack[|s.stack| - 1].todo == {}
    && s.stack[|s.stack| - 1].node in s.low && s.stack[|s.stack| - 2].node in s.low
  }

  lemma PopShape(adj: Adjacency, s: Search)
    requires Popping(adj, s)
    ensures Shape(adj, Pop(s))
  {
    hide LinkedAt, SplitAt, ExitsAt, On, InSides, TimesAt, HangAt, AttainedAt, BoundedAt;
    var t := Pop(s);
    var top := |s.stack| - 1;
    forall i | 0 <= i < |t.stack| ensures LinkedAt(adj, t.stack, i) && SplitAt(adj, t, i) {
      assert forall j | 0 <= j < |s.stack| :: LinkedAt(adj, s.stack, j) && SplitAt(adj, s, j);
      PopAt(adj, s, i);
    }
    forall x ensures x in t.disc <==> Finished(t, x) || On(t.stack, |t.stack|, x) {
      assert x in s.disc <==> Finished(s, x) || On(s.stack, |s.stack|, x);
      PopFinished(s, x);
      OnPrefix(s.stack, top);
      OnLast(s.stack, top, x);
    }
  }

  lemma PopAt(adj: Adjacency, s: Search, i: int)
    requires |s.sides| == |s.stack| > 1 && 0 <= i < |s.stack| - 1
    requires s.stack[|s.stack| - 1].node in s.low && s.stack[|s.stack| - 2].node in s.low
    requires forall j | 0 <= j < |s.stack| :: LinkedAt(adj, s.stack, j) && SplitAt(adj, s, j)
    ensures LinkedAt(adj, Pop(s).stack, i) && SplitAt(adj, Pop(s), i)
  {
    var t, top := Pop(s), |s.stack| - 1;
    assert LinkedAt(adj, s.stack, i) && SplitAt(adj, s, i) && LinkedAt(adj, s.stack, top) && SplitAt(adj, s, top);
    if i == top - 1 {
      forall j | 0 <= j < i ensures t.sides[i] !! t.sides[j] { assert SplitAt(adj, s, j); }
    }
  }

  lemma PopFinished(s: Search, x: NodeId)
    requires |s.sides| == |s.stack| > 1
    requires s.stack[|s.stack| - 1].node in s.low && s.stack[|s.stack| - 2].node in s.low
    ensures Finished(Pop(s), x) <==> Finished(s, x) || x == s.stack[|s.stack| - 1].node
  {
    var t := Pop(s);
    var top := |s.stack| - 1;
    if InSides(s.sides, x) {
      var i :| 0 <= i <= top && x in s.sides[i];
      assert x in t.sides[if i == top then top - 1 else i];
    }
    if InSides(t.sides, x) {
      var i :| 0 <= i < top && x in t.sides[i];
      assert x in s.sides[i] || x in s.sides[top] || x == s.stack[top].node;
    }
    assert s.stack[top].node in t.sides[top - 1];
  }

  lemma PopExits(adj: Adjacency, s: Search)
    requires Popping(adj, s)
    ensures Exits(adj, Pop(s))
  {
    hide LinkedAt, SplitAt, TimesAt, HangAt, AttainedAt, BoundedAt, Witnessed;
    var t := Pop(s);
    var top := |s.stack| - 1;
    OnPrefix(s.stack, top);
    forall i | 0 <= i < |t.stack| ensures ExitsAt(adj, t, i) {
      assert ExitsAt(adj, s, i) && ExitsAt(adj, s, top);
      if i == top - 1 {
        forall x { OnLast(s.stack, top, x); }
      }
    }
  }

  lemma PopTimes(adj: Adjacency, s: Search)
    requires Popping(adj, s)
    ensures Times(Pop(s)) && Hang(adj, Pop(s))
  {
    var t := Pop(s);
    var top := |s.stack| - 1;
    forall i | 0 <= i < |t.stack| ensures TimesAt(t, i) && HangAt(adj, t.stack[i].node, t.sides[i]) {
      assert TimesAt(s, i) && HangAt(adj, s.stack[i].node, s.sides[i]) && TimesAt(s, top);
      if i == top - 1 {
        PopHangs(adj, s);
      }
    }
  }

  lemma PopHangs(adj: Adjacency, s: Search)
    requires Popping(adj, s)
    ensures
      var top := |s.stack| - 1;
      HangAt(adj, s.stack[top - 1].node, s.sides[top - 1] + s.sides[top] + {s.stack[top].node})
  {
    var top := |s.stack| - 1;
    var p, c := s.stack[top - 1].node, s.stack[top].node;
    var side := s.sides[top - 1] + s.sides[top] + {c};
    assert HangAt(adj, p, s.sides[top - 1]) && HangAt(adj, c, s.sides[top]);
    assert LinkedAt(adj, s.stack, top);
    JoinedEdge(adj, side + {p}, p, c);
    forall u | u in side ensures Joined(adj, side + {p}, p, u) {
      if u in s.sides[top - 1] {
        JoinedMono(adj, s.sides[top - 1] + {p}, side + {p}, p, u);
      } else if u in s.sides[top] {
        JoinedMono(adj, s.sides[top] + {c}, side + {p}, c, u);
        JoinedTrans(adj, side + {p}, p, c, u);
      }
    }
  }

  lemma PopLows(adj: Adjacency, s: Search)
    requires Popping(adj, s)
    ensures Lows(adj, Pop(s))
  {
    hide LinkedAt, SplitAt, TimesAt, HangAt, ExitsAt, Witnessed, Times, Hang, Exits;
    PopAttained(adj, s);
    PopBounded(adj, s);
    forall i | 0 <= i < |s.stack| - 2 ensures AttainedAt(adj, Pop(s), i) && BoundedAt(adj, Pop(s), i) {
      PopLowsBelow(adj, s, i);
    }
  }

  lemma PopLowsBelow(adj: Adjacency, s: Search, i: int)
    requires |s.sides| == |s.stack| > 1
    requires s.stack[|s.stack| - 1].node in s.low && s.stack[|s.stack| - 2].node in s.low
    requires LinkedAt(adj, s.stack, |s.stack| - 2)
    requires 0 <= i < |s.stack| - 2 && AttainedAt(adj, s, i) && BoundedAt(adj, s, i)
    ensures AttainedAt(adj, Pop(s), i) && BoundedAt(adj, Pop(s), i)
  {
    assert Pop(s).stack[i] == s.stack[i] && Pop(s).sides[i] == s.sides[i];
    assert s.stack[i].node != s.stack[|s.stack| - 2].node;
  }

  lemma WitnessWiden(
    adj: Adjacency, v: NodeId, parent: Option<NodeId>, side: set<NodeId>, p: NodeId, grand: Option<NodeId>,
    wide: set<NodeId>, disc: map<NodeId, int>, l: int
  )
    requires Witnessed(adj, v, parent, side, disc, l) && side + {v} <= wide + {p}
    requires (v == p && parent == grand) || p !in side + {v}
    ensures Witnessed(adj, p, grand, wide, disc, l)
  {
    var u, w :| u in side + {v} && u in adj && w in adj[u] && w in disc && disc[w] == l
      && !(u == v && Some(w) == parent);
    assert u in wide + {p};
  }

  lemma PopAttained(adj: Adjacency, s: Search)
    requires Popping(adj, s)
    ensures AttainedAt(adj, Pop(s), |s.stack| - 2)
  {
    var top := |s.stack| - 1;
    var p, c := s.stack[top - 1].node, s.stack[top].node;
    var grand, wide := s.stack[top - 1].parent, Pop(s).sides[top - 1];
    assert AttainedAt(adj, s, top - 1) && AttainedAt(adj, s, top) && LinkedAt(adj, s.stack, top)
      && SplitAt(adj, s, top) && TimesAt(s, top);
    if s.low[c] < s.low[p] {
      WitnessWiden(adj, c, s.stack[top].parent, s.sides[top], p, grand, wide, s.disc, s.low[c]);
    } else if s.low[p] != s.disc[p] {
      WitnessWiden(adj, p, grand, s.sides[top - 1], p, grand, wide, s.disc, s.low[p]);
    }
  }

  lemma PopBounded(adj: Adjacency, s: Search)
    requires Popping(adj, s)
    ensures BoundedAt(adj, Pop(s), |s.stack| - 2)
  {
    hide LinkedAt, SplitAt, TimesAt, HangAt, AttainedAt, BoundedAt, Witnessed, ExitsAt;
    var top := |s.stack| - 1;
    assert BoundedAt(adj, s, top - 1) && BoundedAt(adj, s, top);
    BoundLowered(adj, s);
  }

  lemma BoundLowered(adj: Adjacency, s: Search)
    requires |s.stack| == |s.sides| > 1
    requires BoundedAt(adj, s, |s.stack| - 2) && BoundedAt(adj, s, |s.stack| - 1)
    requires s.stack[|s.stack| - 1].todo == {}
    ensures BoundedAt(adj, Pop(s), |s.stack| - 2)
  {
    var t := Pop(s);
    var top := |s.stack| - 1;
    var p := s.stack[top - 1].node;
    forall j, u | 0 <= j < top - 1 && u in t.sides[top - 1] && u in adj && s.stack[j].node in adj[u]
      ensures s.stack[j].node in s.disc && t.low[p] <= s.disc[s.stack[j].node] {}
  }

  lemma PopKeeps(adj: Adjacency, s: Search)
    requires Popping(adj, s)
    ensures Inv(adj, Pop(s))
  {
    PopShape(adj, s);
    PopExits(adj, s);
    PopTimes(adj, s);
    PopLows(adj, s);
  }

  lemma PopRootKeeps(adj: Adjacency, s: Search)
    requires Inv(adj, s) && |s.stack| == 1 && s.stack[0].todo == {}
    ensures Inv(adj, PopRoot(s))
  {
    var t := PopRoot(s);
    assert LinkedAt(adj, s.stack, 0) && SplitAt(adj, s, 0) && ExitsAt(adj, s, 0);
    assert forall x :: On(s.stack, 1, x) <==> x == s.stack[0].node by { assert s.stack[0].node == s.stack[0].node; }
    assert forall x :: InSides(s.sides, x) <==> x in s.sides[0];
    assert forall x :: x in t.disc <==> Finished(t, x) || On(t.stack, 0, x);
  }
}
