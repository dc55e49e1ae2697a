/** The first pass with the mark set when a function is popped, not when it is pushed:
    this is a depth-first post-order and makes the groups exact. */
module MarkOnExpand {
  import opened Orders
  import opened CallGraph
  import opened Grouping
  import opened Kosaraju
  import opened FinishingOrder

  /** Fresh frames for the callees that are not marked yet. */
  function FreshFrames(g: Graph, children: seq<Id>, visited: set<Id>): (frames: seq<Frame>)
    ensures forall f :: f in frames ==> f.node in children && f.node in g.nodes && !f.expanded
    ensures forall c :: c in children && c in g.nodes && c !in visited ==> Frame(c, false) in frames
  {
    if children == [] then []
    else (if children[0] in g.nodes && children[0] !in visited then [Frame(children[0], false)] else [])
         + FreshFrames(g, children[1..], visited)
  }

  ghost predicate Grey(pass: Pass, i: int) {
    0 <= i < |pass.stack| && pass.stack[i].expanded
  }

  /** `order[a]` is a peer of `x`, and everything `x` reaches is listed by then. */
  ghost predicate SettledAt(g: Graph, order: seq<Id>, x: Id, a: int) {
    && 0 <= a < |order| && Mutual(g, order[a], x)
    && forall y :: Reach(g, x, y) ==> y in order[..a + 1]
  }

  ghost predicate Settled(g: Graph, order: seq<Id>, x: Id) {
    exists a :: SettledAt(g, order, x, a)
  }

  ghost predicate PeerOnStack(g: Graph, pass: Pass, x: Id) {
    exists i :: Grey(pass, i) && Mutual(g, pass.stack[i].node, x)
  }

  ghost predicate Marks(g: Graph, pass: Pass) {
    && NoDuplicates(pass.order)
    && (forall x :: x in pass.order ==> x in pass.visited)
    && (forall i :: Grey(pass, i) ==> pass.stack[i].node in pass.visited && pass.stack[i].node !in pass.order)
    && (forall i, j :: Grey(pass, i) && Grey(pass, j) && pass.stack[i].node == pass.stack[j].node ==> i == j)
    && (forall x :: x in pass.visited ==> x in pass.order || exists i :: Grey(pass, i) && pass.stack[i].node == x)
    && (forall i :: 0 <= i < |pass.stack| ==> pass.stack[i].node in g.nodes)
    && pass.visited <= g.nodes
  }

  /** `y` waits above position `i`. */
  ghost predicate WaitsAbove(pass: Pass, i: int, y: Id) {
    exists j :: 0 <= i < j < |pass.stack| && pass.stack[j] == Frame(y, false)
  }

  /** Every callee of an open function is marked or waits above it. */
  ghost predicate CalleesAccounted(g: Graph, pass: Pass) {
    forall i, y :: Grey(pass, i) && Edge(g, pass.stack[i].node, y) ==> y in pass.visited || WaitsAbove(pass, i, y)
  }

  ghost predicate ListedCallees(g: Graph, pass: Pass) {
    forall x, y :: x in pass.order && Edge(g, x, y) ==> y in pass.visited
  }

  /** An open function reaches everything above it. */
  ghost predicate OpenReaches(g: Graph, pass: Pass) {
    forall i, j :: Grey(pass, i) && i < j < |pass.stack| ==> Reach(g, pass.stack[i].node, pass.stack[j].node)
  }

  ghost predicate PeersOrSettled(g: Graph, pass: Pass) {
    forall x :: x in pass.order ==> PeerOnStack(g, pass, x) || Settled(g, pass.order, x)
  }

  ghost predicate DepthFirst(g: Graph, pass: Pass) {
    Marks(g, pass) && ListedCallees(g, pass) && OpenReaches(g, pass) && CalleesAccounted(g, pass) && PeersOrSettled(g, pass)
  }

  function Finish(pass: Pass): Pass
    requires pass.stack != []
  {
    var top := |pass.stack| - 1;
    pass.(stack := pass.stack[..top], order := pass.order + [pass.stack[top].node])
  }

  function Skip(pass: Pass): Pass
    requires pass.stack != []
  {
    pass.(stack := pass.stack[..|pass.stack| - 1])
  }

  function Expand(g: Graph, pass: Pass): Pass
    requires pass.stack != []
  {
    var top := |pass.stack| - 1;
    var node := pass.stack[top].node;
    var visited := pass.visited + {node};
    Pass(pass.stack[..top] + [Frame(node, true)] + FreshFrames(g, SortedCallees(g, node), visited),
         visited, pass.order)
  }

  lemma SettledStays(g: Graph, order: seq<Id>, x: Id, y: Id)
    requires Settled(g, order, x)
    ensures Settled(g, order + [y], x)
  {
    hide Reach;
    var a :| SettledAt(g, order, x, a);
    assert (order + [y])[..a + 1] == order[..a + 1];
    assert SettledAt(g, order + [y], x, a);
  }

  /** When `node` is finished and no lower open frame is a peer, all it reaches is listed. */
  lemma ReachListed(g: Graph, pass: Pass, node: Id, y: Id)
    requires pass.stack != [] && DepthFirst(g, pass)
    requires pass.stack[|pass.stack| - 1] == Frame(node, true)
    requires forall i :: Grey(pass, i) && i < |pass.stack| - 1 ==> !Mutual(g, pass.stack[i].node, node)
    requires Reach(g, node, y)
    ensures y in pass.order + [node]
  {
    var inside := set x | x in g.nodes && x in pass.order + [node] && Reach(g, node, x);
    ReachInNodes(g, node, y);
    ReachSelf(g, node);
    assert Grey(pass, |pass.stack| - 1);
    forall x, w | x in inside && Edge(g, x, w) ensures w in inside {
      ReachEdge(g, x, w);
      ReachTransitive(g, node, x, w);
      assert w in pass.visited;
      if w !in pass.order {
        var i :| Grey(pass, i) && pass.stack[i].node == w;
        assert i == |pass.stack| - 1 || Reach(g, w, node);
      }
    }
    var p :| IsWalk(g, p, node, y);
    StaysInside(g, inside, node, y, p);
  }

  lemma FinishSettles(g: Graph, pass: Pass, x: Id)
    requires pass.stack != [] && DepthFirst(g, pass) && Grey(pass, |pass.stack| - 1)
    requires x in Finish(pass).order
    ensures PeerOnStack(g, Finish(pass), x) || Settled(g, Finish(pass).order, x)
  {
    hide Reach;
    var top := |pass.stack| - 1;
    var node := pass.stack[top].node;
    var next := Finish(pass);
    assert forall i :: Grey(next, i) <==> Grey(pass, i) && i < top;
    ReachSelf(g, node);
    if x != node && Settled(g, pass.order, x) {
      SettledStays(g, pass.order, x, node);
    } else if !PeerOnStack(g, next, x) {
      PeerIsTop(g, pass, x);
      forall i | Grey(pass, i) && i < top ensures !Mutual(g, pass.stack[i].node, node) {
        assert Grey(next, i);
        if Mutual(g, pass.stack[i].node, node) {
          MutualTransitive(g, pass.stack[i].node, node, x);
        }
      }
      forall y | Reach(g, x, y) ensures y in next.order {
        ReachTransitive(g, node, x, y);
        ReachListed(g, pass, node, y);
      }
      assert next.order[..|pass.order| + 1] == next.order;
      assert SettledAt(g, next.order, x, |pass.order|);
    }
  }

  lemma PeerIsTop(g: Graph, pass: Pass, x: Id)
    requires pass.stack != [] && DepthFirst(g, pass) && Grey(pass, |pass.stack| - 1)
    requires x == pass.stack[|pass.stack| - 1].node || (x in pass.order && !Settled(g, pass.order, x))
    requires !PeerOnStack(g, Finish(pass), x)
    ensures Mutual(g, pass.stack[|pass.stack| - 1].node, x)
  {
    hide Reach;
    var top := |pass.stack| - 1;
    if x == pass.stack[top].node {
      ReachSelf(g, x);
    } else {
      var i :| Grey(pass, i) && Mutual(g, pass.stack[i].node, x);
      assert i < top ==> Grey(Finish(pass), i);
    }
  }

  lemma FinishKeepsMarks(g: Graph, pass: Pass)
    requires pass.stack != [] && Marks(g, pass) && Grey(pass, |pass.stack| - 1)
    ensures Marks(g, Finish(pass))
  {
    var top := |pass.stack| - 1;
    var next := Finish(pass);
    assert forall i :: Grey(next, i) <==> Grey(pass, i) && i < top;
    forall x | x in next.visited ensures x in next.order || exists i :: Grey(next, i) && next.stack[i].node == x {
      if x !in next.order {
        var i :| Grey(pass, i) && pass.stack[i].node == x;
        assert Grey(next, i) && next.stack[i].node == x;
      }
    }
  }

  lemma PopKeepsAccount(g: Graph, pass: Pass, next: Pass)
    requires pass.stack != [] && CalleesAccounted(g, pass)
    requires next.stack == pass.stack[..|pass.stack| - 1] && next.visited == pass.visited
    requires pass.stack[|pass.stack| - 1].expanded || pass.stack[|pass.stack| - 1].node in pass.visited
    ensures CalleesAccounted(g, next)
  {
    forall i, y | Grey(next, i) && Edge(g, next.stack[i].node, y)
      ensures y in next.visited || WaitsAbove(next, i, y)
    {
      assert Grey(pass, i);
      if y !in pass.visited {
        var j :| i < j < |pass.stack| && pass.stack[j] == Frame(y, false);
        assert next.stack[j] == Frame(y, false);
      }
    }
  }

  lemma PopKeepsReach(g: Graph, pass: Pass, next: Pass)
    requires pass.stack != [] && OpenReaches(g, pass) && next.stack == pass.stack[..|pass.stack| - 1]
    ensures OpenReaches(g, next)
  {
    hide Reach;
    assert forall i :: Grey(next, i) ==> Grey(pass, i);
  }

  lemma FinishListsCallees(g: Graph, pass: Pass)
    requires pass.stack != [] && Grey(pass, |pass.stack| - 1) && ListedCallees(g, pass) && CalleesAccounted(g, pass)
    ensures ListedCallees(g, Finish(pass))
  {
    hide Edge;
  }

  lemma FinishKeepsDepthFirst(g: Graph, pass: Pass)
    requires pass.stack != [] && DepthFirst(g, pass) && Grey(pass, |pass.stack| - 1)
    ensures DepthFirst(g, Finish(pass))
  {
    hide Marks, ListedCallees, OpenReaches, CalleesAccounted, PeerOnStack, Settled, Grey;
    var next := Finish(pass);
    FinishKeepsMarks(g, pass);
    FinishListsCallees(g, pass);
    forall x | x in next.order ensures PeerOnStack(g, next, x) || Settled(g, next.order, x) {
      FinishSettles(g, pass, x);
    }
    TopOfGrey(pass);
    PopKeepsReach(g, pass, next);
    PopKeepsAccount(g, pass, next);
  }

  lemma TopOfGrey(pass: Pass)
    requires pass.stack != [] && Grey(pass, |pass.stack| - 1)
    ensures pass.stack[|pass.stack| - 1].expanded
  {
  }

  lemma SkipKeepsMarks(g: Graph, pass: Pass)
    requires pass.stack != [] && Marks(g, pass) && !Grey(pass, |pass.stack| - 1)
    ensures Marks(g, Skip(pass))
  {
    var next := Skip(pass);
    assert forall i :: Grey(next, i) <==> Grey(pass, i);
    assert forall i :: Grey(next, i) ==> next.stack[i] == pass.stack[i];
    forall x | x in next.visited ensures x in next.order || exists i :: Grey(next, i) && next.stack[i].node == x {
      if x !in pass.order {
        var i :| Grey(pass, i) && pass.stack[i].node == x;
        assert Grey(next, i) && next.stack[i].node == x;
      }
    }
  }

  lemma SkipKeepsPeers(g: Graph, pass: Pass)
    requires pass.stack != [] && PeersOrSettled(g, pass) && !Grey(pass, |pass.stack| - 1)
    ensures PeersOrSettled(g, Skip(pass))
  {
    hide Settled, Mutual;
    var next := Skip(pass);
    forall x | x in next.order ensures PeerOnStack(g, next, x) || Settled(g, next.order, x) {
      if !Settled(g, pass.order, x) {
        var i :| Grey(pass, i) && Mutual(g, pass.stack[i].node, x);
        assert Grey(next, i);
      }
    }
  }

  lemma SkipKeepsDepthFirst(g: Graph, pass: Pass)
    requires pass.stack != [] && DepthFirst(g, pass)
    requires !Grey(pass, |pass.stack| - 1) && pass.stack[|pass.stack| - 1].node in pass.visited
    ensures DepthFirst(g, Skip(pass))
  {
    hide Marks, OpenReaches, CalleesAccounted, PeersOrSettled, Grey, Edge;
    SkipKeepsMarks(g, pass);
    SkipKeepsPeers(g, pass);
    PopKeepsReach(g, pass, Skip(pass));
    PopKeepsAccount(g, pass, Skip(pass));
  }

  lemma CalleesAsFrames(g: Graph, node: Id, visited: set<Id>)
    ensures var frames := FreshFrames(g, SortedCallees(g, node), visited);
            && (node in g.nodes ==> forall f :: f in frames ==> !f.expanded && Edge(g, node, f.node))
            && (forall y :: Edge(g, node, y) && y !in visited ==> Frame(y, false) in frames)
  {
    ReversedElements(Sorted(Callees(g, node)));
    assert forall c :: c in SortedCallees(g, node) <==> c in Elements(SortedCallees(g, node));
  }

  lemma TopIsFunction(g: Graph, pass: Pass)
    requires pass.stack != [] && Marks(g, pass)
    ensures pass.stack[|pass.stack| - 1].node in g.nodes
  {
    hide Edge, Reach;
  }

  /** Positions of the stack after an expansion. */
  lemma ExpandShape(g: Graph, pass: Pass)
    requires pass.stack != [] && Marks(g, pass)
    requires !Grey(pass, |pass.stack| - 1)
    ensures var next, top := Expand(g, pass), |pass.stack| - 1;
            && |next.stack| > top
            && next.stack[top] == Frame(pass.stack[top].node, true)
            && (forall i :: 0 <= i < top ==> next.stack[i] == pass.stack[i])
            && (forall i :: top < i < |next.stack| ==> !next.stack[i].expanded && Edge(g, pass.stack[top].node, next.stack[i].node))
            && (forall i :: Grey(next, i) <==> Grey(pass, i) || i == top)
  {
    var next, top := Expand(g, pass), |pass.stack| - 1;
    var node := pass.stack[top].node;
    var frames := FreshFrames(g, SortedCallees(g, node), next.visited);
    hide FreshFrames, Edge, SortedCallees, Marks;
    TopIsFunction(g, pass);
    CalleesAsFrames(g, node, next.visited);
    forall i | top < i < |next.stack|
      ensures !next.stack[i].expanded && Edge(g, node, next.stack[i].node)
    {
      assert next.stack[i] == frames[i - top - 1];
    }
  }

  lemma ExpandAccounts(g: Graph, pass: Pass, y: Id)
    requires pass.stack != []
    requires Edge(g, pass.stack[|pass.stack| - 1].node, y)
    ensures y in Expand(g, pass).visited || WaitsAbove(Expand(g, pass), |pass.stack| - 1, y)
  {
    var next, top := Expand(g, pass), |pass.stack| - 1;
    var frames := FreshFrames(g, SortedCallees(g, pass.stack[top].node), next.visited);
    CalleesAsFrames(g, pass.stack[top].node, next.visited);
    if y !in next.visited {
      var k :| 0 <= k < |frames| && frames[k] == Frame(y, false);
      assert next.stack[top + 1 + k] == frames[k];
    }
  }

  lemma ExpandKeepsMarks(g: Graph, pass: Pass)
    requires pass.stack != [] && Marks(g, pass)
    requires !Grey(pass, |pass.stack| - 1) && pass.stack[|pass.stack| - 1].node !in pass.visited
    ensures Marks(g, Expand(g, pass))
  {
    var next, top := Expand(g, pass), |pass.stack| - 1;
    ExpandShape(g, pass);
    forall x | x in next.visited ensures x in next.order || exists i :: Grey(next, i) && next.stack[i].node == x {
      if x == pass.stack[top].node {
        assert Grey(next, top);
      } else if x !in pass.order {
        var i :| Grey(pass, i) && pass.stack[i].node == x;
        assert Grey(next, i);
      }
    }
  }

  /** The shape of the stack after an expansion of the function on top. */
  ghost predicate Opened(g: Graph, pass: Pass, next: Pass) {
    && pass.stack != []
    && var top := |pass.stack| - 1;
       && |next.stack| > top && next.stack[top] == Frame(pass.stack[top].node, true)
       && (forall i :: 0 <= i < top ==> next.stack[i] == pass.stack[i])
       && (forall i :: top < i < |next.stack| ==> Edge(g, pass.stack[top].node, next.stack[i].node))
       && (forall i :: Grey(next, i) <==> Grey(pass, i) || i == top)
       && next.visited == pass.visited + {pass.stack[top].node} && next.order == pass.order
  }

  lemma ExpandOpens(g: Graph, pass: Pass)
    requires pass.stack != [] && Marks(g, pass) && !Grey(pass, |pass.stack| - 1)
    ensures Opened(g, pass, Expand(g, pass))
  {
    hide Expand, Marks, Edge, Grey;
    ExpandFields(g, pass);
    ExpandShape(g, pass);
  }

  lemma OpenedReaches(g: Graph, pass: Pass, next: Pass)
    requires Opened(g, pass, next) && OpenReaches(g, pass)
    ensures OpenReaches(g, next)
  {
    hide Reach, Edge;
    var top := |pass.stack| - 1;
    var node := pass.stack[top].node;
    forall i, j | Grey(next, i) && i < j < |next.stack| ensures Reach(g, next.stack[i].node, next.stack[j].node) {
      if j > top {
        ReachEdge(g, node, next.stack[j].node);
        if i < top { ReachTransitive(g, next.stack[i].node, node, next.stack[j].node); }
      }
    }
  }

  lemma OpenedPeers(g: Graph, pass: Pass, next: Pass)
    requires Opened(g, pass, next) && PeersOrSettled(g, pass)
    ensures PeersOrSettled(g, next)
  {
    hide Settled, Mutual, Edge;
    forall x | x in next.order ensures PeerOnStack(g, next, x) || Settled(g, next.order, x) {
      if !Settled(g, pass.order, x) {
        var i :| Grey(pass, i) && Mutual(g, pass.stack[i].node, x);
        assert Grey(next, i) && next.stack[i].node == pass.stack[i].node;
      }
    }
  }

  lemma OpenedAccounts(g: Graph, pass: Pass, i: int, y: Id)
    requires pass.stack != [] && Opened(g, pass, Expand(g, pass)) && CalleesAccounted(g, pass)
    requires Grey(Expand(g, pass), i) && Edge(g, Expand(g, pass).stack[i].node, y)
    ensures y in Expand(g, pass).visited || WaitsAbove(Expand(g, pass), i, y)
  {
    hide Expand, Edge;
    var next, top := Expand(g, pass), |pass.stack| - 1;
    if i == top {
      ExpandAccounts(g, pass, y);
    } else if y !in next.visited {
      var j :| i < j < |pass.stack| && pass.stack[j] == Frame(y, false);
      assert next.stack[j] == Frame(y, false);
    }
  }

  lemma ExpandKeepsDepthFirst(g: Graph, pass: Pass)
    requires pass.stack != [] && DepthFirst(g, pass)
    requires !Grey(pass, |pass.stack| - 1) && pass.stack[|pass.stack| - 1].node !in pass.visited
    ensures DepthFirst(g, Expand(g, pass))
  {
    hide Expand, Marks, OpenReaches, PeersOrSettled, Grey, Edge, Opened, WaitsAbove;
    var next := Expand(g, pass);
    ExpandFields(g, pass);
    ExpandOpens(g, pass);
    ExpandKeepsMarks(g, pass);
    OpenedReaches(g, pass, next);
    OpenedPeers(g, pass, next);
    GreyInside(next);
    forall i, y | Grey(next, i) && Edge(g, next.stack[i].node, y) ensures y in next.visited || WaitsAbove(next, i, y) {
      OpenedAccounts(g, pass, i, y);
    }
  }

  lemma GreyInside(pass: Pass)
    ensures forall i :: Grey(pass, i) ==> 0 <= i < |pass.stack|
  {
  }

  lemma ExpandFields(g: Graph, pass: Pass)
    requires pass.stack != []
    ensures Expand(g, pass).visited == pass.visited + {pass.stack[|pass.stack| - 1].node}
    ensures Expand(g, pass).order == pass.order
  {
  }

  lemma EmptyStackSettles(g: Graph, pass: Pass, x: Id)
    requires DepthFirst(g, pass) && pass.stack == [] && x in pass.visited
    ensures x in pass.order && Settled(g, pass.order, x)
  {
    hide Settled, Reach;
  }

  /** A settled function's whole reach is listed before one of its peers. */
  lemma SettledPeerBy(g: Graph, order: seq<Id>, i: nat, u: Id)
    requires NoDuplicates(order) && i < |order| && Reach(g, u, Reversed(order)[i]) && Settled(g, order, u)
    ensures PeerBy(g, Reversed(order), u, i)
  {
    hide Reach;
    var starts, n := Reversed(order), |order| - 1;
    var a :| SettledAt(g, order, u, a);
    var b :| 0 <= b < a + 1 && order[b] == starts[i];
    assert order[n - i] == starts[i];
    assert b == n - i;
    assert starts[n - a] == order[a];
  }

  lemma StackEmptyMeansSettled(g: Graph, pass: Pass)
    requires DepthFirst(g, pass) && pass.stack == [] && g.nodes <= pass.visited
    ensures IsPermutation(pass.order, g.nodes) && CallersFinishLater(g, pass.order)
  {
    hide Reach, Settled, PeerBy, OpenReaches, CalleesAccounted, PeersOrSettled, CallersFinishLater, Grey;
    var order := pass.order;
    var starts := Reversed(order);
    forall x | x in g.nodes ensures x in order && Settled(g, order, x) {
      EmptyStackSettles(g, pass, x);
    }
    assert Elements(order) == g.nodes;
    forall i, u | 0 <= i < |starts| && Reach(g, u, starts[i]) ensures PeerBy(g, starts, u, i) {
      ReachInNodes(g, u, starts[i]);
      SettledPeerBy(g, order, i, u);
    }
    PeersImplyFinish(g, order);
  }

  lemma NothingOpened(g: Graph)
    ensures DepthFirst(g, Pass([], {}, []))
  {
  }

  /** The repaired first pass: it establishes the condition under which the second
      pass returns exactly the strongly connected components. */
  method FinishingOrderMarkOnExpand(g: Graph) returns (order: seq<Id>)
    ensures IsPermutation(order, g.nodes)
    ensures CallersFinishLater(g, order)
  {
    hide DepthFirst, CallersFinishLater;
    var pass := Pass([], {}, []);
    var starts := Sorted(g.nodes);
    NothingOpened(g);
    for k := 0 to |starts|
      invariant DepthFirst(g, pass) && pass.stack == []
      invariant forall j :: 0 <= j < k ==> starts[j] in pass.visited
    {
      assert starts[k] in starts;
      pass := Visit(g, starts[k], pass);
    }
    forall x | x in g.nodes ensures x in pass.visited {
      assert x in starts;
    }
    StackEmptyMeansSettled(g, pass);
    order := pass.order;
  }

  lemma TopKnown(g: Graph, pass: Pass)
    requires DepthFirst(g, pass) && pass.stack != []
    ensures pass.stack[|pass.stack| - 1].node in g.nodes && pass.visited <= g.nodes
    ensures pass.stack[|pass.stack| - 1].expanded ==> pass.stack[|pass.stack| - 1].node in pass.visited
  {
    hide ListedCallees, OpenReaches, CalleesAccounted, PeersOrSettled;
    assert pass.stack[|pass.stack| - 1].expanded ==> Grey(pass, |pass.stack| - 1);
  }

  lemma StartKeepsDepthFirst(g: Graph, start: Id, pass: Pass)
    requires DepthFirst(g, pass) && pass.stack == [] && start in g.nodes
    ensures DepthFirst(g, pass.(stack := [Frame(start, false)]))
  {
    hide Reach, Settled;
  }

  method Visit(g: Graph, start: Id, pass0: Pass) returns (pass: Pass)
    requires DepthFirst(g, pass0) && pass0.stack == [] && start in g.nodes
    ensures DepthFirst(g, pass) && pass.stack == []
    ensures pass0.visited + {start} <= pass.visited
  {
    hide DepthFirst;
    pass := pass0.(stack := [Frame(start, false)]);
    StartKeepsDepthFirst(g, start, pass0);
    while pass.stack != []
      invariant DepthFirst(g, pass)
      invariant pass0.visited <= pass.visited
      invariant start in pass.visited || pass.stack == [Frame(start, false)]
      decreases g.nodes - pass.visited, |pass.stack|
    {
      TopKnown(g, pass);
      pass := VisitTop(g, pass);
    }
  }

  method VisitTop(g: Graph, pass0: Pass) returns (pass: Pass)
    requires DepthFirst(g, pass0) && pass0.stack != []
    ensures DepthFirst(g, pass)
    ensures pass0.visited + {pass0.stack[|pass0.stack| - 1].node} == pass.visited
    ensures pass.visited == pass0.visited ==> |pass.stack| < |pass0.stack|
  {
    hide DepthFirst;
    var top := |pass0.stack| - 1;
    TopKnown(g, pass0);
    if pass0.stack[top].expanded {
      assert Grey(pass0, top);
      FinishKeepsDepthFirst(g, pass0);
      pass := Finish(pass0);
    } else if pass0.stack[top].node in pass0.visited {
      SkipKeepsDepthFirst(g, pass0);
      pass := Skip(pass0);
    } else {
      ExpandKeepsDepthFirst(g, pass0);
      pass := Expand(g, pass0);
    }
  }
}
