/** When the pass as written is exact: a condition on the calls alone. */
module ReducedCalls {
  import opened Orders
  import opened CallGraph
  import opened Grouping
  import opened Kosaraju
  import opened FinishingOrder
  import opened Layering

  /** `c` calls into the recursion class of `y`, which is not its own. */
  ghost predicate CallsClass(g: Graph, c: Id, y: Id) {
    !Mutual(g, c, y) && exists z :: Edge(g, c, z) && Mutual(g, z, y)
  }

  /** No call between classes has a detour: of two functions that call the same other class, none reaches the other one,
      unless they are mutually recursive. */
  ghost predicate NoDetours(g: Graph) {
    forall w, c, y :: CallsClass(g, w, y) && CallsClass(g, c, y) && Reach(g, w, c) ==> Mutual(g, w, c)
  }

  /** Who calls into a class and is reached from it is of that class. */
  lemma CallerApart(g: Graph, w: Id, q: Id, c: Id, y: Id)
    requires Edge(g, w, q) && Mutual(g, q, y) && Reach(g, w, c) && CallsClass(g, c, y)
    ensures CallsClass(g, w, y)
  {
    hide Reach;
    var z :| Edge(g, c, z) && Mutual(g, z, y);
    ReachEdge(g, c, z);
    ReachTransitive(g, c, z, y);
    if Mutual(g, w, y) {
      ReachTransitive(g, y, w, c);
    }
  }

  // ------------------------------------------------ invariants of the stack

  predicate Grey(pass: Pass, k: int) {
    0 <= k < |pass.stack| && pass.stack[k].expanded
  }

  /** Open functions reach everything above them. */
  ghost predicate GreyReaches(g: Graph, pass: Pass) {
    forall k, i :: Grey(pass, k) && k < i < |pass.stack| ==> Reach(g, pass.stack[k].node, pass.stack[i].node)
  }

  ghost predicate PushedBy(g: Graph, pass: Pass, i: int, k: int) {
    0 <= k < i < |pass.stack| && Grey(pass, k) && Edge(g, pass.stack[k].node, pass.stack[i].node)
  }

  /** Every waiting function but a start was pushed by an open one below it. */
  ghost predicate Pushed(g: Graph, pass: Pass) {
    forall i :: 0 <= i < |pass.stack| && !pass.stack[i].expanded ==> |pass.stack| == 1 || exists k :: PushedBy(g, pass, i, k)
  }

  /** All callees of `x` are marked. */
  ghost predicate CalleesMarked(g: Graph, pass: Pass, x: Id) {
    forall y :: Edge(g, x, y) ==> y in pass.visited
  }

  ghost predicate MarkedBehind(g: Graph, pass: Pass, except: int) {
    && (forall x :: x in pass.order ==> CalleesMarked(g, pass, x))
    && (forall k :: Grey(pass, k) && k != except ==> CalleesMarked(g, pass, pass.stack[k].node))
  }

  ghost predicate Before(order: seq<Id>, y: Id, p: Id) {
    exists i, j :: 0 <= i < j < |order| && order[i] == y && order[j] == p
  }

  predicate StackedBy(stack: seq<Frame>, k: int, y: Id) {
    exists m :: 0 <= m <= k && m < |stack| && stack[m].node == y
  }

  /** A peer of `c` on the stack with `y` neither at nor below it. */
  ghost predicate PaidAt(g: Graph, pass: Pass, c: Id, y: Id, k: int) {
    0 <= k < |pass.stack| && Mutual(g, pass.stack[k].node, c) && !StackedBy(pass.stack, k, y)
  }

  ghost predicate PaidBy(g: Graph, pass: Pass, c: Id, y: Id, p: Id) {
    Mutual(g, p, c) && Before(pass.order, y, p)
  }

  /** Some peer of `c` has finished after `y`, or will. */
  ghost predicate Paid(g: Graph, pass: Pass, c: Id, y: Id) {
    (exists p :: PaidBy(g, pass, c, y, p)) || (exists k :: PaidAt(g, pass, c, y, k))
  }

  ghost predicate AllPaid(g: Graph, pass: Pass) {
    forall c, y :: c in pass.visited && CallsClass(g, c, y) ==> Paid(g, pass, c, y)
  }

  ghost predicate Inv(g: Graph, pass: Pass) {
    Once(g, pass) && GreyReaches(g, pass) && Pushed(g, pass) && MarkedBehind(g, pass, -1) && AllPaid(g, pass)
  }

  /** Positions of the listed and stacked functions. */
  lemma OnceApart(g: Graph, pass: Pass)
    requires Once(g, pass)
    ensures forall i, j :: 0 <= i < j < |pass.stack| ==> pass.stack[i].node != pass.stack[j].node
    ensures forall i, x :: 0 <= i < |pass.stack| && x in pass.order ==> pass.stack[i].node != x
    ensures forall x :: x in pass.visited <==> x in pass.order || exists i :: 0 <= i < |pass.stack| && pass.stack[i].node == x
    ensures forall x :: x in pass.visited ==> x in g.nodes
  {
    var all := pass.order + Names(pass.stack);
    forall i, j | 0 <= i < j < |pass.stack| ensures pass.stack[i].node != pass.stack[j].node {
      assert all[|pass.order| + i] == pass.stack[i].node && all[|pass.order| + j] == pass.stack[j].node;
    }
    forall i, x | 0 <= i < |pass.stack| && x in pass.order ensures pass.stack[i].node != x {
      var j :| 0 <= j < |pass.order| && pass.order[j] == x;
      assert all[j] == x && all[|pass.order| + i] == pass.stack[i].node;
    }
    forall x ensures x in pass.visited <==> x in pass.order || exists i :: 0 <= i < |pass.stack| && pass.stack[i].node == x {
      assert x in pass.visited <==> x in all;
      if exists i :: 0 <= i < |pass.stack| && pass.stack[i].node == x {
        var i :| 0 <= i < |pass.stack| && pass.stack[i].node == x;
        assert all[|pass.order| + i] == x;
      }
      if x in all && x !in pass.order {
        var j :| 0 <= j < |all| && all[j] == x;
        assert pass.stack[j - |pass.order|].node == x;
      }
    }
  }

  /** `q` waits on the stack below a peer of `c`, in a class that `c` calls: the open function that pushed `q` is a peer
      of `c` as well. */
  lemma PusherPays(g: Graph, pass: Pass, c: Id, y: Id, m: int, top: int) returns (k: int)
    requires NoDetours(g) && GreyReaches(g, pass) && Pushed(g, pass)
    requires 0 <= m < top < |pass.stack| && !pass.stack[m].expanded && Mutual(g, pass.stack[m].node, y)
    requires CallsClass(g, c, y) && Mutual(g, pass.stack[top].node, c)
    ensures 0 <= k < m && Mutual(g, pass.stack[k].node, c)
  {
    hide Reach, CallsClass;
    k :| PushedBy(g, pass, m, k);
    var w := pass.stack[k].node;
    ReachTransitive(g, w, pass.stack[top].node, c);
    CallerApart(g, w, pass.stack[m].node, c, y);
  }

  /** `y` is on the stack below a peer of `c`. */
  lemma StackedPays(g: Graph, pass: Pass, c: Id, y: Id, m: int, top: int)
    requires NoDetours(g) && Once(g, pass) && GreyReaches(g, pass) && Pushed(g, pass)
    requires 0 <= m < top < |pass.stack| && pass.stack[m].node == y
    requires CallsClass(g, c, y) && Mutual(g, pass.stack[top].node, c)
    ensures exists k :: 0 <= k < m && PaidAt(g, pass, c, y, k)
  {
    hide Reach, NoDetours, Once;
    OnceApart(g, pass);
    if pass.stack[m].expanded {
      var z :| Edge(g, c, z) && Mutual(g, z, y);
      ReachTransitive(g, y, pass.stack[top].node, c);
      ReachEdge(g, c, z);
      ReachTransitive(g, c, z, y);
    } else {
      StackedIsNode(g, pass, m);
      ReachSelf(g, y);
      var k := PusherPays(g, pass, c, y, m, top);
      assert PaidAt(g, pass, c, y, k);
    }
  }

  lemma StackedIsNode(g: Graph, pass: Pass, m: int)
    requires Once(g, pass) && 0 <= m < |pass.stack|
    ensures pass.stack[m].node in g.nodes
  {
    OnceApart(g, pass);
  }

  // ------------------------------------------------ pushing a callee

  /** While the callees of the open function at `parent` are pushed. */
  ghost predicate Opening(g: Graph, pass: Pass, parent: int) {
    && Once(g, pass) && GreyReaches(g, pass) && Pushed(g, pass) && MarkedBehind(g, pass, parent) && AllPaid(g, pass)
    && Grey(pass, parent) && forall i :: parent < i < |pass.stack| ==> !pass.stack[i].expanded
  }

  function PushOne(pass: Pass, c: Id): Pass {
    pass.(visited := pass.visited + {c}, stack := pass.stack + [Frame(c, false)])
  }

  lemma PushReaches(g: Graph, pass: Pass, parent: int, c: Id)
    requires Once(g, pass) && GreyReaches(g, pass) && Grey(pass, parent) && Edge(g, pass.stack[parent].node, c)
    requires forall i :: parent < i < |pass.stack| ==> !pass.stack[i].expanded
    ensures GreyReaches(g, PushOne(pass, c))
  {
    hide Reach, Once;
    var next := PushOne(pass, c);
    forall k, i | Grey(next, k) && k < i < |next.stack| ensures Reach(g, next.stack[k].node, next.stack[i].node) {
      if i == |pass.stack| {
        ReachEdge(g, pass.stack[parent].node, c);
        if k < parent {
          assert Grey(pass, k);
          ReachTransitive(g, pass.stack[k].node, pass.stack[parent].node, c);
        }
      } else {
        assert Grey(pass, k);
      }
    }
  }

  lemma PushPushes(g: Graph, pass: Pass, parent: int, c: Id)
    requires Pushed(g, pass) && Grey(pass, parent) && Edge(g, pass.stack[parent].node, c)
    ensures Pushed(g, PushOne(pass, c))
  {
    var next := PushOne(pass, c);
    forall i | 0 <= i < |next.stack| && !next.stack[i].expanded ensures exists k :: PushedBy(g, next, i, k) {
      if i == |pass.stack| {
        assert PushedBy(g, next, i, parent);
      } else {
        var k :| PushedBy(g, pass, i, k);
        assert PushedBy(g, next, i, k);
      }
    }
  }

  lemma PushMarks(g: Graph, pass: Pass, parent: int, c: Id)
    requires MarkedBehind(g, pass, parent)
    ensures MarkedBehind(g, PushOne(pass, c), parent)
  {
    var next := PushOne(pass, c);
    forall k | Grey(next, k) && k != parent ensures CalleesMarked(g, next, next.stack[k].node) {
      assert Grey(pass, k);
    }
  }

  /** What was paid stays paid when a function is pushed on top. */
  lemma PaidUnderPush(g: Graph, pass: Pass, c: Id, x: Id, y: Id)
    requires Paid(g, pass, x, y)
    ensures Paid(g, PushOne(pass, c), x, y)
  {
    hide Mutual;
    var next := PushOne(pass, c);
    if p :| PaidBy(g, pass, x, y, p) {
      assert PaidBy(g, next, x, y, p);
    } else {
      var k :| PaidAt(g, pass, x, y, k);
      assert PaidAt(g, next, x, y, k);
    }
  }

  /** The function on top pays for itself, or an open one below does. */
  lemma TopPays(g: Graph, pass: Pass, y: Id)
    requires NoDetours(g) && Once(g, pass) && GreyReaches(g, pass) && Pushed(g, pass) && pass.stack != []
    requires CallsClass(g, pass.stack[|pass.stack| - 1].node, y)
    ensures Paid(g, pass, pass.stack[|pass.stack| - 1].node, y)
  {
    hide Reach, NoDetours, Once, CallsClass, GreyReaches, Pushed;
    var top := |pass.stack| - 1;
    var c := pass.stack[top].node;
    StackedIsNode(g, pass, top);
    ReachSelf(g, c);
    if StackedBy(pass.stack, top, y) {
      var m :| 0 <= m <= top && pass.stack[m].node == y;
      NotOwnClass(g, c, y);
      StackedPays(g, pass, c, y, m, top);
    } else {
      assert PaidAt(g, pass, c, y, top);
    }
  }

  lemma NotOwnClass(g: Graph, c: Id, y: Id)
    requires CallsClass(g, c, y) && c in g.nodes
    ensures c != y
  {
    hide Reach;
    ReachSelf(g, c);
  }

  lemma PushKeeps(g: Graph, pass: Pass, parent: int, c: Id)
    requires NoDetours(g) && Opening(g, pass, parent) && Edge(g, pass.stack[parent].node, c) && c !in pass.visited
    ensures Opening(g, PushOne(pass, c), parent)
  {
    hide Reach, NoDetours, Once, CallsClass, GreyReaches, Pushed, MarkedBehind, Paid;
    var next := PushOne(pass, c);
    OncePush(g, pass, c);
    PushReaches(g, pass, parent, c);
    PushPushes(g, pass, parent, c);
    PushMarks(g, pass, parent, c);
    forall x, y | x in next.visited && CallsClass(g, x, y) ensures Paid(g, next, x, y) {
      if x in pass.visited {
        PaidUnderPush(g, pass, c, x, y);
      } else {
        TopPays(g, next, y);
      }
    }
  }

  lemma {:induction false} PushAllKeeps(g: Graph, children: seq<Id>, pass: Pass, parent: int)
    requires NoDetours(g) && Opening(g, pass, parent)
    requires forall c :: c in children && c in g.nodes ==> Edge(g, pass.stack[parent].node, c)
    ensures var next := PushUnmarked(g, children, pass);
      && Opening(g, next, parent) && next.stack[parent] == pass.stack[parent] && pass.visited <= next.visited
      && forall c :: c in children && c in g.nodes ==> c in next.visited
  {
    hide NoDetours, Once, GreyReaches, Pushed, MarkedBehind, AllPaid, Edge;
    if children != [] {
      var c := children[0];
      assert children == [c] + children[1..];
      if c in g.nodes && c !in pass.visited {
        PushKeeps(g, pass, parent, c);
        PushAllKeeps(g, children[1..], PushOne(pass, c), parent);
      } else {
        PushAllKeeps(g, children[1..], pass, parent);
      }
    }
  }

  // ------------------------------------------------ expanding

  function Opened(pass: Pass): Pass
    requires pass.stack != []
  {
    var top := |pass.stack| - 1;
    pass.(stack := pass.stack[..top] + [Frame(pass.stack[top].node, true)])
  }

  lemma OpenedOnce(g: Graph, pass: Pass)
    requires pass.stack != [] && Once(g, pass)
    ensures Once(g, Opened(pass))
  {
    assert Names(Opened(pass).stack) == Names(pass.stack);
  }

  lemma OpenedPays(g: Graph, pass: Pass)
    requires pass.stack != [] && AllPaid(g, pass)
    ensures AllPaid(g, Opened(pass))
  {
    hide CallsClass, Mutual;
    forall x, y | x in pass.visited && CallsClass(g, x, y) ensures Paid(g, Opened(pass), x, y) {
      assert Paid(g, pass, x, y);
      if p :| PaidBy(g, pass, x, y, p) {
        assert PaidBy(g, Opened(pass), x, y, p);
      } else {
        var k :| PaidAt(g, pass, x, y, k);
        assert PaidAt(g, Opened(pass), x, y, k);
      }
    }
  }

  lemma OpenedReaches(g: Graph, pass: Pass)
    requires pass.stack != [] && GreyReaches(g, pass) && Pushed(g, pass)
    ensures GreyReaches(g, Opened(pass)) && Pushed(g, Opened(pass))
  {
    hide Reach, Edge;
    var next := Opened(pass);
    forall k, i | Grey(next, k) && k < i < |next.stack| ensures Reach(g, next.stack[k].node, next.stack[i].node) {
      assert Grey(pass, k);
    }
    forall i | 0 <= i < |next.stack| && !next.stack[i].expanded ensures |next.stack| == 1 || exists k :: PushedBy(g, next, i, k) {
      if k :| PushedBy(g, pass, i, k) {
        assert PushedBy(g, next, i, k);
      }
    }
  }

  lemma OpenedMarks(g: Graph, pass: Pass)
    requires pass.stack != [] && MarkedBehind(g, pass, -1)
    ensures MarkedBehind(g, Opened(pass), |pass.stack| - 1)
  {
    hide CalleesMarked;
    SameMarks(g, pass, Opened(pass));
    forall k | Grey(Opened(pass), k) && k != |pass.stack| - 1 ensures CalleesMarked(g, Opened(pass), Opened(pass).stack[k].node) {
      assert Grey(pass, k);
    }
  }

  lemma SameMarks(g: Graph, a: Pass, b: Pass)
    requires a.visited <= b.visited
    ensures forall x :: CalleesMarked(g, a, x) ==> CalleesMarked(g, b, x)
  {
    hide Edge;
  }

  lemma OpeningDone(g: Graph, pass: Pass, parent: int)
    requires Opening(g, pass, parent) && CalleesMarked(g, pass, pass.stack[parent].node)
    ensures Inv(g, pass)
  {
    hide Once, GreyReaches, Pushed, AllPaid, CalleesMarked;
  }

  lemma CalleesAreChildren(g: Graph, node: Id)
    ensures forall c :: c in SortedCallees(g, node) <==> c in Callees(g, node)
  {
    ReversedElements(Sorted(Callees(g, node)));
    assert forall c :: c in SortedCallees(g, node) <==> c in Elements(SortedCallees(g, node));
  }

  lemma ExpandKeeps(g: Graph, pass: Pass)
    requires NoDetours(g) && Inv(g, pass) && pass.stack != [] && !pass.stack[|pass.stack| - 1].expanded
    ensures Inv(g, StepAsWritten(g, pass))
  {
    hide NoDetours, Once, GreyReaches, Pushed, MarkedBehind, AllPaid, PushUnmarked, SortedCallees;
    var top := |pass.stack| - 1;
    var node := pass.stack[top].node;
    OpenedOnce(g, pass);
    OpenedPays(g, pass);
    OpenedReaches(g, pass);
    OpenedMarks(g, pass);
    CalleesAreChildren(g, node);
    StackedIsNode(g, pass, top);
    PushAllKeeps(g, SortedCallees(g, node), Opened(pass), top);
    OpeningDone(g, StepAsWritten(g, pass), top);
  }

  // ------------------------------------------------ finishing

  function Finished(pass: Pass): Pass
    requires pass.stack != []
  {
    var top := |pass.stack| - 1;
    pass.(stack := pass.stack[..top], order := pass.order + [pass.stack[top].node])
  }

  /** On the way from a marked function to an unmarked one, something waits on the stack. */
  lemma {:induction false} WaitsOnTheWay(g: Graph, pass: Pass, x: Id, y: Id, walk: seq<Id>) returns (m: nat)
    requires Once(g, pass) && MarkedBehind(g, pass, -1) && IsWalk(g, walk, x, y) && x in pass.visited && y !in pass.visited
    ensures m < |pass.stack| && !pass.stack[m].expanded && Reach(g, x, pass.stack[m].node) && Reach(g, pass.stack[m].node, y)
    decreases |walk|
  {
    hide Once, Reach;
    OnceApart(g, pass);
    if i :| 0 <= i < |pass.stack| && pass.stack[i].node == x && !pass.stack[i].expanded {
      m := i;
      ReachSelf(g, x);
      WalkReaches(g, walk, x, y);
    } else {
      assert |walk| > 1 && Edge(g, x, walk[1]);
      MarkedCallee(g, pass, x, walk[1]);
      m := WaitsOnTheWay(g, pass, walk[1], y, walk[1..]);
      ReachEdge(g, x, walk[1]);
      ReachTransitive(g, x, walk[1], pass.stack[m].node);
    }
  }

  lemma WalkReaches(g: Graph, walk: seq<Id>, x: Id, y: Id)
    requires IsWalk(g, walk, x, y)
    ensures Reach(g, x, y)
  {
  }

  /** The callees of a listed or open function are marked. */
  lemma MarkedCallee(g: Graph, pass: Pass, x: Id, y: Id)
    requires Once(g, pass) && MarkedBehind(g, pass, -1) && x in pass.visited && Edge(g, x, y)
    requires forall i :: 0 <= i < |pass.stack| && pass.stack[i].node == x ==> pass.stack[i].expanded
    ensures y in pass.visited
  {
    hide Once, Edge;
    OnceApart(g, pass);
    if x !in pass.order {
      var i :| 0 <= i < |pass.stack| && pass.stack[i].node == x;
      assert Grey(pass, i);
    }
    assert CalleesMarked(g, pass, x);
  }

  /** The function on top is the last that could pay, and `y` is not even marked: another one below can. */
  lemma LaterPays(g: Graph, pass: Pass, c: Id, y: Id)
    requires NoDetours(g) && Inv(g, pass) && pass.stack != [] && Grey(pass, |pass.stack| - 1)
    requires Mutual(g, pass.stack[|pass.stack| - 1].node, c) && CallsClass(g, c, y) && c in pass.visited && y !in pass.visited
    ensures exists k :: 0 <= k < |pass.stack| - 1 && PaidAt(g, pass, c, y, k)
  {
    hide Reach, NoDetours, GreyReaches, Pushed, MarkedBehind, AllPaid, Once;
    var top := |pass.stack| - 1;
    OnceApart(g, pass);
    var z :| Edge(g, c, z) && Mutual(g, z, y);
    if z !in pass.visited {
      if forall i :: 0 <= i < |pass.stack| && pass.stack[i].node == c ==> pass.stack[i].expanded {
        MarkedCallee(g, pass, c, z);
      }
      var i :| 0 <= i < |pass.stack| && pass.stack[i].node == c && !pass.stack[i].expanded;
      ReachSelf(g, c);
      assert PaidAt(g, pass, c, y, i);
    } else {
      var walk := AWalk(g, z, y);
      var m := WaitsOnTheWay(g, pass, z, y, walk);
      ReachTransitive(g, y, z, pass.stack[m].node);
      var k := PusherPays(g, pass, c, y, m, top);
      assert PaidAt(g, pass, c, y, k);
    }
  }

  lemma AWalk(g: Graph, x: Id, y: Id) returns (walk: seq<Id>)
    requires Reach(g, x, y)
    ensures IsWalk(g, walk, x, y)
  {
    walk :| IsWalk(g, walk, x, y);
  }

  lemma BeforeGrows(order: seq<Id>, y: Id, p: Id, t: Id)
    ensures Before(order, y, p) ==> Before(order + [t], y, p)
    ensures y in order ==> Before(order + [t], y, t)
  {
    if Before(order, y, p) {
      var i, j :| 0 <= i < j < |order| && order[i] == y && order[j] == p;
      assert (order + [t])[i] == y && (order + [t])[j] == p;
    }
    if y in order {
      var i :| 0 <= i < |order| && order[i] == y;
      assert (order + [t])[i] == y && (order + [t])[|order|] == t;
    }
  }

  lemma PaidBelow(g: Graph, pass: Pass, c: Id, y: Id, k: int)
    requires pass.stack != [] && k < |pass.stack| - 1 && PaidAt(g, pass, c, y, k)
    ensures PaidAt(g, Finished(pass), c, y, k)
  {
    hide Mutual;
  }

  lemma FinishPays(g: Graph, pass: Pass, c: Id, y: Id)
    requires NoDetours(g) && Inv(g, pass) && pass.stack != [] && Grey(pass, |pass.stack| - 1)
    requires c in pass.visited && CallsClass(g, c, y)
    ensures Paid(g, Finished(pass), c, y)
  {
    hide Mutual, NoDetours, GreyReaches, Pushed, MarkedBehind, Once, CallsClass, Before;
    var top := |pass.stack| - 1;
    var t := pass.stack[top].node;
    assert Paid(g, pass, c, y);
    if p :| PaidBy(g, pass, c, y, p) {
      BeforeGrows(pass.order, y, p, t);
      assert PaidBy(g, Finished(pass), c, y, p);
    } else {
      var k :| PaidAt(g, pass, c, y, k);
      if k < top {
        PaidBelow(g, pass, c, y, k);
      } else {
        OnceApart(g, pass);
        if y in pass.visited {
          BeforeGrows(pass.order, y, t, t);
          assert PaidBy(g, Finished(pass), c, y, t);
        } else {
          LaterPays(g, pass, c, y);
          k :| 0 <= k < top && PaidAt(g, pass, c, y, k);
          PaidBelow(g, pass, c, y, k);
        }
      }
    }
  }

  lemma FinishedStack(g: Graph, pass: Pass)
    requires Inv(g, pass) && pass.stack != [] && Grey(pass, |pass.stack| - 1)
    ensures GreyReaches(g, Finished(pass)) && Pushed(g, Finished(pass)) && MarkedBehind(g, Finished(pass), -1)
  {
    hide Reach, Edge, AllPaid, Once, CalleesMarked;
    var next := Finished(pass);
    SameMarks(g, pass, next);
    forall k, i | Grey(next, k) && k < i < |next.stack| ensures Reach(g, next.stack[k].node, next.stack[i].node) {
      assert Grey(pass, k);
    }
    forall i | 0 <= i < |next.stack| && !next.stack[i].expanded ensures exists k :: PushedBy(g, next, i, k) {
      var k :| PushedBy(g, pass, i, k);
      assert PushedBy(g, next, i, k);
    }
    forall k | Grey(next, k) ensures CalleesMarked(g, next, next.stack[k].node) {
      assert Grey(pass, k);
    }
  }

  lemma FinishKeeps(g: Graph, pass: Pass)
    requires NoDetours(g) && Inv(g, pass) && pass.stack != [] && Grey(pass, |pass.stack| - 1)
    ensures Inv(g, StepAsWritten(g, pass))
  {
    hide NoDetours, GreyReaches, Pushed, MarkedBehind, Once, CallsClass, Paid, PushUnmarked;
    OnceStep(g, pass);
    FinishedStack(g, pass);
    forall c, y | c in pass.visited && CallsClass(g, c, y) ensures Paid(g, Finished(pass), c, y) {
      FinishPays(g, pass, c, y);
    }
    assert AllPaid(g, Finished(pass));
  }

  // ------------------------------------------------ the whole pass

  lemma {:induction false} RunKeeps(g: Graph, pass: Pass)
    requires NoDetours(g) && Inv(g, pass)
    ensures Inv(g, RunAsWritten(g, pass)) && RunAsWritten(g, pass).stack == []
    decreases g.nodes - pass.visited, Weight(pass.stack)
  {
    hide NoDetours, Inv, StepAsWritten, PushUnmarked;
    if pass.stack != [] {
      StepProgress(g, pass);
      if pass.stack[|pass.stack| - 1].expanded {
        FinishKeeps(g, pass);
      } else {
        ExpandKeeps(g, pass);
      }
      RunKeeps(g, StepAsWritten(g, pass));
    }
  }

  lemma StartKeeps(g: Graph, pass: Pass, start: Id)
    requires NoDetours(g) && Inv(g, pass) && pass.stack == [] && start in g.nodes - pass.visited
    ensures Inv(g, PushOne(pass, start)) && PushOne(pass, start).stack == [Frame(start, false)]
  {
    hide NoDetours, Once, CallsClass, Paid, CalleesMarked;
    var next := PushOne(pass, start);
    OncePush(g, pass, start);
    SameMarks(g, pass, next);
    assert next.stack == [Frame(start, false)];
    forall x, y | x in next.visited && CallsClass(g, x, y) ensures Paid(g, next, x, y) {
      if x in pass.visited {
        PaidUnderPush(g, pass, start, x, y);
      } else {
        TopPays(g, next, y);
      }
    }
  }

  lemma {:induction false} PassKeeps(g: Graph, starts: seq<Id>, pass: Pass)
    requires NoDetours(g) && Inv(g, pass) && pass.stack == [] && Elements(starts) <= g.nodes
    ensures Inv(g, PassFrom(g, starts, pass)) && PassFrom(g, starts, pass).stack == []
  {
    hide NoDetours, Inv, RunAsWritten;
    if starts != [] {
      assert Elements(starts) == {starts[0]} + Elements(starts[1..]);
      if starts[0] in pass.visited {
        PassKeeps(g, starts[1..], pass);
      } else {
        assert starts[0] in Elements(starts);
        StartKeeps(g, pass, starts[0]);
        RunKeeps(g, PushOne(pass, starts[0]));
        PassKeeps(g, starts[1..], RunAsWritten(g, PushOne(pass, starts[0])));
      }
    }
  }

  lemma NothingInv(g: Graph)
    ensures Inv(g, Pass([], {}, []))
  {
    hide Mutual;
    NothingOnce(g);
  }

  lemma {:induction false} LastPeer(g: Graph, order: seq<Id>, v: Id, n: nat) returns (i: nat)
    requires n <= |order| && exists j :: 0 <= j < n && Mutual(g, order[j], v)
    ensures i < n && Mutual(g, order[i], v) && forall j :: i < j < n ==> !Mutual(g, order[j], v)
  {
    hide Mutual;
    if Mutual(g, order[n - 1], v) {
      i := n - 1;
    } else {
      i := LastPeer(g, order, v, n - 1);
    }
  }

  lemma PaidIsFinish(g: Graph, order: seq<Id>, u: Id, v: Id)
    requires IsPermutation(order, g.nodes) && AllPaid(g, Pass([], g.nodes, order)) && Edge(g, u, v) && !Mutual(g, u, v)
    ensures exists j :: FinishesAfter(g, order, u, v, j)
  {
    hide Reach, Mutual;
    MutualSelf(g, v);
    assert v in Elements(order);
    var at :| 0 <= at < |order| && order[at] == v;
    var last := LastPeer(g, order, v, |order|);
    var y := order[last];
    PeerIsCalled(g, u, v, y);
    assert Paid(g, Pass([], g.nodes, order), u, y);
    var p :| PaidBy(g, Pass([], g.nodes, order), u, y, p);
    var i, j :| 0 <= i < j < |order| && order[i] == y && order[j] == p;
    assert i == last;
    assert FinishesAfter(g, order, u, v, j);
  }

  lemma MutualSelf(g: Graph, v: Id)
    requires v in g.nodes
    ensures Mutual(g, v, v)
  {
    ReachSelf(g, v);
  }

  lemma PeerIsCalled(g: Graph, u: Id, v: Id, y: Id)
    requires Edge(g, u, v) && !Mutual(g, u, v) && Mutual(g, y, v)
    ensures CallsClass(g, u, y)
  {
    hide Reach;
    if Mutual(g, u, y) { MutualTransitive(g, u, y, v); }
  }

  /** Without detours the pass as written finishes callers' classes last, so its groups are exact. */
  lemma WithoutDetoursExact(g: Graph)
    requires NoDetours(g)
    ensures CallersFinishLater(g, OrderAsWritten(g)) && ExactGroups(g, GroupsAsWritten(g))
  {
    hide NoDetours, Once, AllPaid, Mutual, Groups, ExactGroups, FinishesAfter, PassFrom;
    SortedElements(g.nodes);
    NothingInv(g);
    PassKeeps(g, Sorted(g.nodes), Pass([], {}, []));
    OrderAsWrittenIsPermutation(g);
    OncePass(g, Sorted(g.nodes), Pass([], {}, []));
    var end := PassFrom(g, Sorted(g.nodes), Pass([], {}, []));
    AllMarked(g, end);
    assert end == Pass([], g.nodes, OrderAsWritten(g));
    forall u, v | Edge(g, u, v) && !Mutual(g, u, v) ensures exists j :: FinishesAfter(g, OrderAsWritten(g), u, v, j) {
      PaidIsFinish(g, OrderAsWritten(g), u, v);
    }
    ExactIffCallersFinishLater(g, OrderAsWritten(g));
  }

  lemma AllMarked(g: Graph, pass: Pass)
    requires Once(g, pass) && g.nodes <= pass.visited
    ensures pass.visited == g.nodes
  {
  }
}
