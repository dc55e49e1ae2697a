/** What the grouping guarantees: for every finishing order, and exactly when the
    groups are the classes of mutual recursion. */
module Kosaraju {
  import opened Orders
  import opened CallGraph
  import opened Grouping

  predicate InGroup(groups: seq<set<Id>>, i: int, x: Id) {
    0 <= i < |groups| && x in groups[i]
  }

  ghost predicate InSomeGroup(groups: seq<set<Id>>, x: Id) {
    exists i :: InGroup(groups, i, x)
  }

  ghost predicate Partitions(groups: seq<set<Id>>, nodes: set<Id>) {
    && (forall i :: 0 <= i < |groups| ==> groups[i] != {})
    && (forall i, j, x :: InGroup(groups, i, x) && InGroup(groups, j, x) ==> i == j)
    && (forall x :: InSomeGroup(groups, x) <==> x in nodes)
  }

  /** Calls, also indirect ones, never lead to an earlier group. */
  ghost predicate CallersFirst(g: Graph, groups: seq<set<Id>>) {
    forall i, j, u, v :: InGroup(groups, i, u) && InGroup(groups, j, v) && Reach(g, u, v) ==> i <= j
  }

  lemma {:induction false} GroupsOfStarts(g: Graph, starts: seq<Id>)
    requires Elements(starts) <= g.nodes
    ensures Partitions(Groups(g, starts), Up(g, starts))
    ensures CallersFirst(g, Groups(g, starts))
  {
    if starts != [] {
      var n := |starts| - 1;
      var done, s := starts[..n], starts[n];
      assert starts == done + [s];
      ElementsSnoc(done, s);
      GroupsOfStarts(g, done);
      GroupsSnoc(g, done, s);
      if s in Up(g, done) {
        UpSkips(g, done, s);
      } else {
        UpSnoc(g, done, s);
        UpClosed(g, done);
        PartitionAppended(g, Groups(g, done), Up(g, done), s);
        CallersFirstAppended(g, Groups(g, done), Up(g, done), s);
      }
    } else {
      assert Up(g, starts) == {};
    }
  }

  lemma InGroupAppended(groups: seq<set<Id>>, group: set<Id>)
    ensures forall i, x :: InGroup(groups + [group], i, x) <==>
                           InGroup(groups, i, x) || (i == |groups| && x in group)
  {
  }

  lemma PartitionAppended(g: Graph, groups: seq<set<Id>>, up: set<Id>, s: Id)
    requires Partitions(groups, up) && s in g.nodes - up
    ensures Partitions(groups + [Ancestors(g, s) - up], up + Ancestors(g, s))
  {
    var group := Ancestors(g, s) - up;
    InGroupAppended(groups, group);
    ReachSelf(g, s);
    assert s in group;
    forall i, x | InGroup(groups, i, x) ensures x in up { assert InSomeGroup(groups, x); }
    forall x ensures InSomeGroup(groups + [group], x) <==> x in up + Ancestors(g, s) {
      if InSomeGroup(groups, x) {
        var i :| InGroup(groups, i, x);
        assert InGroup(groups + [group], i, x);
      } else if x in group {
        assert InGroup(groups + [group], |groups|, x);
      }
    }
  }

  lemma CallersFirstAppended(g: Graph, groups: seq<set<Id>>, up: set<Id>, s: Id)
    requires Partitions(groups, up) && CallersFirst(g, groups)
    requires ClosedUnderCallers(g, up)
    ensures CallersFirst(g, groups + [Ancestors(g, s) - up])
  {
    var group := Ancestors(g, s) - up;
    InGroupAppended(groups, group);
    forall j, u, v | InGroup(groups, j, v) && u in group ensures !Reach(g, u, v) {
      assert InSomeGroup(groups, v);
      if Reach(g, u, v) {
        var p :| IsWalk(g, p, u, v);
        CallersOfMembers(g, up, u, v, p);
      }
    }
  }

  lemma OrderCoversNodes(g: Graph, order: seq<Id>)
    requires IsPermutation(order, g.nodes)
    ensures Elements(Reversed(order)) == g.nodes && Up(g, Reversed(order)) == g.nodes
  {
    ReversedElements(order);
    var starts := Reversed(order);
    forall x | x in g.nodes ensures x in Up(g, starts) {
      assert x in Elements(starts);
      var i :| 0 <= i < |starts| && starts[i] == x;
      ReachSelf(g, x);
    }
  }

  /** Whatever the first pass does, as long as it lists every function once: the groups
      partition the functions and every call edge goes to the same or a later group. */
  lemma AnyOrderGroups(g: Graph, order: seq<Id>)
    requires IsPermutation(order, g.nodes)
    ensures Partitions(Groups(g, Reversed(order)), g.nodes)
    ensures CallersFirst(g, Groups(g, Reversed(order)))
  {
    OrderCoversNodes(g, order);
    GroupsOfStarts(g, Reversed(order));
  }

  /** Mutually recursive functions share their group, for every finishing order. */
  lemma AnyOrderKeepsRecursionTogether(g: Graph, order: seq<Id>, groups: seq<set<Id>>, u: Id, v: Id, i: nat)
    requires IsPermutation(order, g.nodes) && groups == Groups(g, Reversed(order))
    requires InGroup(groups, i, u) && Mutual(g, u, v)
    ensures InGroup(groups, i, v)
  {
    AnyOrderGroups(g, order);
    ReachInNodes(g, u, v);
    assert InSomeGroup(groups, v);
    var j :| InGroup(groups, j, v);
    assert i <= j && j <= i;
  }

  /** The assigned set is closed under callers after every group. */
  lemma AssignedClosedUnderCallers(g: Graph, order: seq<Id>, groups: seq<set<Id>>, k: nat, u: Id, v: Id, j: nat)
    requires IsPermutation(order, g.nodes) && groups == Groups(g, Reversed(order))
    requires Edge(g, u, v) && j < k && InGroup(groups, j, v)
    ensures exists i :: i < k && InGroup(groups, i, u)
  {
    AnyOrderGroups(g, order);
    ReachEdge(g, u, v);
    assert InSomeGroup(groups, u);
    var i :| InGroup(groups, i, u);
    assert i <= j;
  }

  // ------------------------------------------------------------ exact groups

  /** Two functions share a group exactly when each can reach the other. */
  ghost predicate ExactGroups(g: Graph, groups: seq<set<Id>>) {
    forall i, u, v :: 0 <= i < |groups| && u in groups[i] && v in g.nodes ==>
      (v in groups[i] <==> Mutual(g, u, v))
  }

  /** `order[j]` is a recursion peer of `u` that finishes after all peers of `v`. */
  ghost predicate FinishesAfter(g: Graph, order: seq<Id>, u: Id, v: Id, j: int) {
    && 0 <= j < |order| && Mutual(g, order[j], u)
    && forall i :: 0 <= i < |order| && Mutual(g, order[i], v) ==> i < j
  }

  /** For a call between functions that are not mutually recursive, the caller's class
      has the last finish. */
  ghost predicate CallersFinishLater(g: Graph, order: seq<Id>) {
    forall u, v :: Edge(g, u, v) && !Mutual(g, u, v) ==> exists j :: FinishesAfter(g, order, u, v, j)
  }

  /** A peer of `u` is looked at no later than `starts[i]`. */
  ghost predicate PeerBy(g: Graph, starts: seq<Id>, u: Id, i: int) {
    exists j :: 0 <= j <= i < |starts| && Mutual(g, starts[j], u)
  }

  ghost predicate PeersBeforeCallees(g: Graph, starts: seq<Id>) {
    forall i, u :: 0 <= i < |starts| && Reach(g, u, starts[i]) ==> PeerBy(g, starts, u, i)
  }

  lemma MutualTransitive(g: Graph, u: Id, v: Id, w: Id)
    requires Mutual(g, u, v) && Mutual(g, v, w)
    ensures Mutual(g, u, w)
  {
    ReachTransitive(g, u, v, w);
    ReachTransitive(g, w, v, u);
  }

  lemma {:induction false} PeersOnWalk(g: Graph, order: seq<Id>, starts: seq<Id>, i: nat, u: Id, p: seq<Id>)
    requires starts == Reversed(order) && CallersFinishLater(g, order)
    requires i < |starts| && IsWalk(g, p, u, starts[i])
    ensures PeerBy(g, starts, u, i)
    decreases |p|
  {
    if |p| == 1 {
      ReachSelf(g, u);
      assert Mutual(g, starts[i], u);
    } else {
      assert Edge(g, p[0], p[1]);
      PeersOnWalk(g, order, starts, i, p[1], p[1..]);
      var j :| 0 <= j <= i && Mutual(g, starts[j], p[1]);
      if Mutual(g, u, p[1]) {
        MutualTransitive(g, starts[j], p[1], u);
      } else {
        var k :| FinishesAfter(g, order, u, p[1], k);
        var n := |order| - 1;
        assert order[n - j] == starts[j];
        assert order[k] == starts[n - k];
        assert n - j < k;
      }
    }
  }

  lemma FinishImpliesPeers(g: Graph, order: seq<Id>)
    requires CallersFinishLater(g, order)
    ensures PeersBeforeCallees(g, Reversed(order))
  {
    var starts := Reversed(order);
    forall i, u | 0 <= i < |starts| && Reach(g, u, starts[i]) ensures PeerBy(g, starts, u, i) {
      var p :| IsWalk(g, p, u, starts[i]);
      PeersOnWalk(g, order, starts, i, u, p);
    }
  }

  /** The earliest start in the class of `v`. */
  lemma {:induction false} FirstPeer(g: Graph, starts: seq<Id>, v: Id, k: nat) returns (i: nat)
    requires k < |starts| && Mutual(g, starts[k], v)
    ensures i <= k && Mutual(g, starts[i], v)
    ensures forall m :: 0 <= m < i ==> !Mutual(g, starts[m], v)
  {
    i := 0;
    while !Mutual(g, starts[i], v)
      invariant i <= k
      invariant forall m :: 0 <= m < i ==> !Mutual(g, starts[m], v)
      decreases k - i
    {
      i := i + 1;
    }
  }

  lemma PeersImplyFinish(g: Graph, order: seq<Id>)
    requires IsPermutation(order, g.nodes)
    requires PeersBeforeCallees(g, Reversed(order))
    ensures CallersFinishLater(g, order)
  {
    hide Reach, Mutual, Reversed, PeersBeforeCallees, FinishesAfter;
    var starts := Reversed(order);
    OrderCoversNodes(g, order);
    forall u, v | Edge(g, u, v) && !Mutual(g, u, v) ensures exists j :: FinishesAfter(g, order, u, v, j) {
      CallerFinish(g, order, starts, u, v);
    }
  }

  lemma CallerFinish(g: Graph, order: seq<Id>, starts: seq<Id>, u: Id, v: Id)
    requires starts == Reversed(order) && Elements(starts) == g.nodes
    requires PeersBeforeCallees(g, starts)
    requires Edge(g, u, v) && !Mutual(g, u, v)
    ensures exists j :: FinishesAfter(g, order, u, v, j)
  {
    hide Reach;
    assert v in Elements(starts);
    var k :| 0 <= k < |starts| && starts[k] == v;
    ReachSelf(g, v);
    var i := FirstPeer(g, starts, v, k);
    ReachEdge(g, u, v);
    ReachTransitive(g, u, v, starts[i]);
    assert PeerBy(g, starts, u, i);
    var j :| 0 <= j <= i && Mutual(g, starts[j], u);
    if j == i { MutualTransitive(g, u, starts[j], v); }
    FinishPosition(g, order, starts, u, v, i, j);
  }

  lemma FinishPosition(g: Graph, order: seq<Id>, starts: seq<Id>, u: Id, v: Id, i: nat, j: nat)
    requires starts == Reversed(order) && j < i < |starts| && Mutual(g, starts[j], u)
    requires forall m :: 0 <= m < i ==> !Mutual(g, starts[m], v)
    ensures exists k :: FinishesAfter(g, order, u, v, k)
  {
    var n := |order| - 1;
    assert order[n - j] == starts[j];
    forall m | 0 <= m < |order| && Mutual(g, order[m], v) ensures m < n - j {
      assert starts[n - m] == order[m];
    }
    assert FinishesAfter(g, order, u, v, n - j);
  }

  lemma {:induction false} PeersImplyExact(g: Graph, starts: seq<Id>)
    requires Elements(starts) <= g.nodes && PeersBeforeCallees(g, starts)
    ensures ExactGroups(g, Groups(g, starts))
  {
    if starts != [] {
      var n := |starts| - 1;
      var done, s := starts[..n], starts[n];
      assert starts == done + [s];
      ElementsSnoc(done, s);
      forall i, u | 0 <= i < |done| && Reach(g, u, done[i]) ensures PeerBy(g, done, u, i) {
        assert starts[i] == done[i];
        assert PeerBy(g, starts, u, i);
        var j :| 0 <= j <= i && Mutual(g, starts[j], u);
        assert done[j] == starts[j];
      }
      PeersImplyExact(g, done);
      GroupsSnoc(g, done, s);
      if s !in Up(g, done) {
        NewGroupExact(g, done, s);
      }
    }
  }

  lemma StartsReached(g: Graph, starts: seq<Id>)
    ensures forall u, j :: 0 <= j < |starts| && Reach(g, u, starts[j]) ==> u in Up(g, starts)
  {
    forall u, j | 0 <= j < |starts| && Reach(g, u, starts[j]) ensures u in g.nodes {
      ReachInNodes(g, u, starts[j]);
    }
  }

  lemma NewGroupExact(g: Graph, done: seq<Id>, s: Id)
    requires s in g.nodes && s !in Up(g, done)
    requires PeersBeforeCallees(g, done + [s])
    ensures forall u, v :: u in Ancestors(g, s) - Up(g, done) && v in g.nodes ==>
              (v in Ancestors(g, s) - Up(g, done) <==> Mutual(g, u, v))
  {
    var starts := done + [s];
    StartsReached(g, done);
    forall u | u in Ancestors(g, s) - Up(g, done) ensures Mutual(g, s, u) {
      assert starts[|done|] == s;
      assert PeerBy(g, starts, u, |done|);
      var j :| 0 <= j <= |done| && Mutual(g, starts[j], u);
    }
    forall u, v | u in Ancestors(g, s) - Up(g, done) && v in g.nodes
      ensures v in Ancestors(g, s) - Up(g, done) <==> Mutual(g, u, v)
    {
      if v in Ancestors(g, s) - Up(g, done) {
        MutualTransitive(g, u, s, v);
      }
      if Mutual(g, u, v) {
        MutualTransitive(g, s, u, v);
        UpClosed(g, done);
        if v in Up(g, done) {
          var p :| IsWalk(g, p, s, v);
          CallersOfMembers(g, Up(g, done), s, v, p);
        }
      }
    }
  }

  /** Whatever reaches `starts[i]` shares a group with some start looked at by then. */
  lemma {:induction false} SharesGroupByThen(g: Graph, starts: seq<Id>, u: Id, i: nat) returns (k: nat, c: nat)
    requires Elements(starts) <= g.nodes
    requires i < |starts| && Reach(g, u, starts[i])
    ensures k <= i && c < |Groups(g, starts)|
    ensures u in Groups(g, starts)[c] && starts[k] in Groups(g, starts)[c]
  {
    var n := |starts| - 1;
    var done, s := starts[..n], starts[n];
    assert starts == done + [s];
    ElementsSnoc(done, s);
    GroupsSnoc(g, done, s);
    ReachInNodes(g, u, starts[i]);
    if i < n {
      k, c := SharesGroupByThen(g, done, u, i);
    } else if u in Up(g, done) {
      var i' :| 0 <= i' < n && Reach(g, u, done[i']);
      k, c := SharesGroupByThen(g, done, u, i');
    } else {
      UpClosed(g, done);
      if s in Up(g, done) {
        var p :| IsWalk(g, p, u, s);
        CallersOfMembers(g, Up(g, done), u, s, p);
      }
      ReachSelf(g, s);
      k, c := n, |Groups(g, done)|;
    }
  }

  lemma ExactImpliesPeers(g: Graph, starts: seq<Id>)
    requires Elements(starts) <= g.nodes && ExactGroups(g, Groups(g, starts))
    ensures PeersBeforeCallees(g, starts)
  {
    forall i, u | 0 <= i < |starts| && Reach(g, u, starts[i]) ensures PeerBy(g, starts, u, i) {
      var k, c := SharesGroupByThen(g, starts, u, i);
      assert starts[k] in Elements(starts);
      ReachInNodes(g, u, starts[i]);
      assert Mutual(g, starts[k], u);
    }
  }

  /** The second pass returns exactly the strongly connected components if and only if,
      for every call between two different classes, the caller's class finishes last. */
  lemma ExactIffCallersFinishLater(g: Graph, order: seq<Id>)
    requires IsPermutation(order, g.nodes)
    ensures ExactGroups(g, Groups(g, Reversed(order))) <==> CallersFinishLater(g, order)
  {
    OrderCoversNodes(g, order);
    if CallersFinishLater(g, order) {
      FinishImpliesPeers(g, order);
      PeersImplyExact(g, Reversed(order));
    }
    if ExactGroups(g, Groups(g, Reversed(order))) {
      ExactImpliesPeers(g, Reversed(order));
      PeersImplyFinish(g, order);
    }
  }
}
