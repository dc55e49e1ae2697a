/** `_strongly_connected_components` and `dependency_layers`. */
module Layering {
  import opened Wrappers
  import opened Orders
  import opened CallGraph
  import opened Grouping
  import opened Kosaraju
  import opened FinishingOrder
  import opened MarkOnExpand

  /** The grouping as written. */
  ghost function GroupsAsWritten(g: Graph): seq<set<Id>> {
    Groups(g, Reversed(OrderAsWritten(g)))
  }

  method StronglyConnectedComponents(g: Graph) returns (components: seq<seq<Id>>)
    ensures components == SortEach(GroupsAsWritten(g))
    ensures Partitions(GroupsAsWritten(g), g.nodes) && CallersFirst(g, GroupsAsWritten(g))
    ensures ExactGroups(g, GroupsAsWritten(g)) <==> CallersFinishLater(g, OrderAsWritten(g))
  {
    OrderAsWrittenIsPermutation(g);
    AnyOrderGroups(g, OrderAsWritten(g));
    ExactIffCallersFinishLater(g, OrderAsWritten(g));
    var order := FinishingOrderAsWritten(g);
    components := SecondPass(g, order);
  }

  predicate ListedIn(components: seq<seq<Id>>, i: int, f: Id) {
    0 <= i < |components| && f in components[i]
  }

  ghost predicate ListedSomewhere(components: seq<seq<Id>>, f: Id) {
    exists i :: ListedIn(components, i, f)
  }

  lemma ListsTheGroups(groups: seq<set<Id>>, i: int, f: Id)
    ensures ListedIn(SortEach(groups), i, f) <==> InGroup(groups, i, f)
  {
  }

  lemma ExactSame(g: Graph, groups: seq<set<Id>>, i: int, j: int, u: Id, v: Id)
    requires Partitions(groups, g.nodes) && ExactGroups(g, groups) && InGroup(groups, i, u) && InGroup(groups, j, v)
    ensures i == j <==> Mutual(g, u, v)
  {
    hide Mutual;
    assert InSomeGroup(groups, v);
    assert v in groups[i] <==> Mutual(g, u, v);
    assert v in groups[i] ==> InGroup(groups, i, v);
  }

  lemma CoveredSomewhere(groups: seq<set<Id>>, nodes: set<Id>, f: Id)
    requires Partitions(groups, nodes)
    ensures f in nodes <==> ListedSomewhere(SortEach(groups), f)
  {
    hide SortEach;
    if f in nodes {
      assert InSomeGroup(groups, f);
      var i :| InGroup(groups, i, f);
      ListsTheGroups(groups, i, f);
    }
    if ListedSomewhere(SortEach(groups), f) {
      var i :| ListedIn(SortEach(groups), i, f);
      ListsTheGroups(groups, i, f);
      assert InSomeGroup(groups, f);
    }
  }

  /** With the mark moved from push to pop the groups are exactly the classes of mutual recursion,
      each sorted, callers before callees. */
  method ExactComponents(g: Graph) returns (components: seq<seq<Id>>)
    ensures forall f :: f in g.nodes <==> ListedSomewhere(components, f)
    ensures forall i, j, u, v :: ListedIn(components, i, u) && ListedIn(components, j, v) ==> (i == j <==> Mutual(g, u, v))
    ensures forall i, j, u, v :: ListedIn(components, i, u) && ListedIn(components, j, v) && Reach(g, u, v) ==> i <= j
    ensures forall i :: 0 <= i < |components| ==> components[i] != [] && Increasing(components[i], StrLeq)
  {
    hide Reach, Mutual, Partitions, CallersFirst, ExactGroups, CallersFinishLater, ListedIn, InGroup, Increasing;
    var order := FinishingOrderMarkOnExpand(g);
    AnyOrderGroups(g, order);
    ExactIffCallersFinishLater(g, order);
    components := SecondPass(g, order);
    ghost var groups := Groups(g, Reversed(order));
    SortedGroups(groups, g.nodes);
    forall f ensures f in g.nodes <==> ListedSomewhere(components, f) {
      CoveredSomewhere(groups, g.nodes, f);
    }
    forall i, j, u, v | ListedIn(components, i, u) && ListedIn(components, j, v) ensures i == j <==> Mutual(g, u, v) {
      ListsTheGroups(groups, i, u);
      ListsTheGroups(groups, j, v);
      ExactSame(g, groups, i, j, u, v);
    }
    forall i, j, u, v | ListedIn(components, i, u) && ListedIn(components, j, v) && Reach(g, u, v) ensures i <= j {
      ListsTheGroups(groups, i, u);
      ListsTheGroups(groups, j, v);
      CallersNotLater(g, groups, i, j, u, v);
    }
  }

  lemma CallersNotLater(g: Graph, groups: seq<set<Id>>, i: int, j: int, u: Id, v: Id)
    requires CallersFirst(g, groups) && InGroup(groups, i, u) && InGroup(groups, j, v) && Reach(g, u, v)
    ensures i <= j
  {
  }

  lemma SortedGroups(groups: seq<set<Id>>, nodes: set<Id>)
    requires Partitions(groups, nodes)
    ensures forall i :: 0 <= i < |groups| ==> SortEach(groups)[i] != [] && Increasing(SortEach(groups)[i], StrLeq)
  {
    hide Increasing;
    forall i | 0 <= i < |groups| ensures SortEach(groups)[i] != [] {
      var x :| x in groups[i];
      assert x in SortEach(groups)[i];
    }
  }

  // ------------------------------------------------ layers

  type Layers = seq<seq<seq<Id>>>

  predicate Slot(layers: Layers, l: int, k: int) {
    0 <= l < |layers| && 0 <= k < |layers[l]|
  }

  predicate Placed(layers: Layers, l: int, k: int, f: Id) {
    Slot(layers, l, k) && f in layers[l][k]
  }

  ghost predicate PlacedSomewhere(layers: Layers, f: Id) {
    exists l, k :: Placed(layers, l, k, f)
  }

  /** A function at slot `l`, `k` calls one at slot `l'`, `k'`. */
  ghost predicate SlotCalls(g: Graph, layers: Layers, l: int, k: int, l': int, k': int) {
    exists f, c :: Edge(g, f, c) && Placed(layers, l, k, f) && Placed(layers, l', k', c)
  }

  ghost predicate CallsLayer(g: Graph, layers: Layers, l: int, k: int, l': int) {
    exists k' :: SlotCalls(g, layers, l, k, l', k')
  }

  /** What `dependency_layers` promises: the slots partition the functions; a callee is in
      the caller's own slot or in a strictly earlier layer; and a group above layer 0
      calls into the layer right below, so its layer is one more than the highest of its
      callee groups. */
  ghost predicate Layered(g: Graph, layers: Layers) {
    && (forall f :: f in g.nodes <==> PlacedSomewhere(layers, f))
    && (forall l, k, l', k', f :: Placed(layers, l, k, f) && Placed(layers, l', k', f) ==> l == l' && k == k')
    && (forall l, k, l', k' :: SlotCalls(g, layers, l, k, l', k') ==> (l == l' && k == k') || l' < l)
    && (forall l, k :: Slot(layers, l, k) && 0 < l ==> CallsLayer(g, layers, l, k, l - 1))
  }

  // ------------------------------------------------ component_for, component_dependencies

  method ComponentFor(components: seq<seq<Id>>, ghost groups: seq<set<Id>>, ghost nodes: set<Id>)
    returns (componentFor: map<Id, nat>)
    requires components == SortEach(groups) && Partitions(groups, nodes)
    ensures componentFor.Keys == nodes
    ensures forall f :: f in componentFor ==> InGroup(groups, componentFor[f], f)
  {
    hide Partitions, SortEach;
    SameLength(groups);
    componentFor := map[];
    for i := 0 to |components|
      invariant forall f, j :: InGroup(groups, j, f) && j < i ==> f in componentFor
      invariant forall f :: f in componentFor ==> InGroup(groups, componentFor[f], f)
    {
      GroupElements(groups, nodes, i);
      componentFor := componentFor + map f | f in components[i] :: i;
    }
    GroupedAreNodes(groups, nodes);
  }

  lemma GroupedAreNodes(groups: seq<set<Id>>, nodes: set<Id>)
    requires Partitions(groups, nodes)
    ensures forall f :: f in nodes <==> exists i :: InGroup(groups, i, f)
  {
    forall f ensures f in nodes <==> exists i :: InGroup(groups, i, f) {
      assert f in nodes <==> InSomeGroup(groups, f);
    }
  }

  ghost predicate GroupCalls(g: Graph, groups: seq<set<Id>>, i: int, j: int) {
    exists f, c :: InGroup(groups, i, f) && InGroup(groups, j, c) && c in Callees(g, f)
  }

  ghost function GroupDeps(g: Graph, groups: seq<set<Id>>, i: int): set<nat> {
    set j: nat | j < |groups| && j != i && GroupCalls(g, groups, i, j)
  }

  /** Some function calls an id that is not a function: the lookup raises `KeyError`. */
  ghost predicate CalleeUnknown(g: Graph) {
    exists f, c :: f in g.nodes && c in Callees(g, f) && c !in g.nodes
  }

  ghost predicate CalleesKnown(g: Graph, group: set<Id>) {
    forall f, c :: f in group && c in Callees(g, f) ==> c in g.nodes
  }

  lemma GroupElements(groups: seq<set<Id>>, nodes: set<Id>, i: nat)
    requires i < |groups| && Partitions(groups, nodes)
    ensures |SortEach(groups)| == |groups| && groups[i] <= nodes
    ensures forall f :: f in SortEach(groups)[i] <==> f in groups[i]
  {
    forall f | f in groups[i] ensures f in nodes { assert InGroup(groups, i, f) && InSomeGroup(groups, f); }
  }

  lemma OneGroupOnly(groups: seq<set<Id>>, nodes: set<Id>, f: Id, i: int, j: int)
    requires Partitions(groups, nodes) && InGroup(groups, i, f) && InGroup(groups, j, f)
    ensures i == j
  {
    assert InSomeGroup(groups, f);
  }

  lemma AllCalleesKnown(g: Graph, groups: seq<set<Id>>)
    requires Partitions(groups, g.nodes) && forall j :: 0 <= j < |groups| ==> CalleesKnown(g, groups[j])
    ensures !CalleeUnknown(g)
  {
    hide CalleesKnown;
    forall f | f in g.nodes ensures CalleesKnown(g, {f}) {
      assert InSomeGroup(groups, f);
      var j :| InGroup(groups, j, f);
      OneOfGroup(g, groups[j], f);
    }
    AnyCalleeKnown(g);
  }

  lemma OneOfGroup(g: Graph, group: set<Id>, f: Id)
    requires CalleesKnown(g, group) && f in group
    ensures CalleesKnown(g, {f})
  {
  }

  lemma AnyCalleeKnown(g: Graph)
    requires forall f :: f in g.nodes ==> CalleesKnown(g, {f})
    ensures !CalleeUnknown(g)
  {
    forall f, c | f in g.nodes && c in Callees(g, f) ensures c in g.nodes {
      assert CalleesKnown(g, {f});
    }
  }

  /** One entry of `component_dependencies`, or `None` for the `KeyError`. */
  method DependenciesOf(g: Graph, component: seq<Id>, componentFor: map<Id, nat>,
                        ghost groups: seq<set<Id>>, i: nat)
    returns (r: Option<set<nat>>)
    requires i < |groups| && component == SortEach(groups)[i] && Partitions(groups, g.nodes)
    requires componentFor.Keys == g.nodes
    requires forall f :: f in componentFor ==> InGroup(groups, componentFor[f], f)
    ensures r.None? ==> CalleeUnknown(g)
    ensures r.Some? ==> r.value == GroupDeps(g, groups, i)
    ensures r.Some? ==> CalleesKnown(g, groups[i])
  {
    hide Partitions, SortEach;
    GroupElements(groups, g.nodes, i);
    if exists f, c | f in component && c in Callees(g, f) :: c !in componentFor {
      ghost var f, c :| f in component && c in Callees(g, f) && c !in componentFor;
      assert f in groups[i] && f in g.nodes;
      return None;
    }
    var deps := set f, c | f in component && c in Callees(g, f) && componentFor[c] != i :: componentFor[c];
    forall j: nat ensures j in deps <==> j in GroupDeps(g, groups, i) {
      if j in deps {
        var f, c :| f in component && c in Callees(g, f) && componentFor[c] == j && j != i;
        assert InGroup(groups, i, f) && InGroup(groups, j, c);
      }
      if j in GroupDeps(g, groups, i) {
        var f, c :| InGroup(groups, i, f) && InGroup(groups, j, c) && c in Callees(g, f);
        OneGroupOnly(groups, g.nodes, c, j, componentFor[c]);
        assert f in component;
      }
    }
    r := Some(deps);
  }

  method ComponentDependencies(g: Graph, components: seq<seq<Id>>, componentFor: map<Id, nat>,
                               ghost groups: seq<set<Id>>)
    returns (r: Option<seq<set<nat>>>)
    requires components == SortEach(groups) && Partitions(groups, g.nodes)
    requires componentFor.Keys == g.nodes
    requires forall f :: f in componentFor ==> InGroup(groups, componentFor[f], f)
    ensures r.None? <==> CalleeUnknown(g)
    ensures r.Some? ==> |r.value| == |groups| && forall i :: 0 <= i < |groups| ==> r.value[i] == GroupDeps(g, groups, i)
  {
    hide Partitions, SortEach, GroupDeps, CalleesKnown, CalleeUnknown, InGroup;
    var all: seq<set<nat>> := [];
    SameLength(groups);
    for i := 0 to |components|
      invariant |all| == i && forall j :: 0 <= j < i ==> all[j] == GroupDeps(g, groups, j)
      invariant forall j :: 0 <= j < i ==> CalleesKnown(g, groups[j])
    {
      var one := DependenciesOf(g, components[i], componentFor, groups, i);
      if one.None? { return None; }
      all := all + [one.value];
    }
    AllCalleesKnown(g, groups);
    r := Some(all);
  }

  lemma SameLength(groups: seq<set<Id>>)
    ensures |SortEach(groups)| == |groups|
  {
  }

  // ------------------------------------------------ the layering loop

  ghost predicate DependsOnLevel(deps: seq<set<nat>>, level: map<nat, nat>, i: nat, v: int) {
    i < |deps| && exists j :: j in deps[i] && j in level && level[j] == v
  }

  /** Component `i` waits for one that is not completed or was completed in layer `v`. */
  ghost predicate WaitsFor(deps: seq<set<nat>>, level: map<nat, nat>, i: nat, v: int) {
    i < |deps| && exists j :: j in deps[i] && (j in level ==> level[j] == v)
  }

  ghost predicate DepsLower(deps: seq<set<nat>>, level: map<nat, nat>, i: nat) {
    i < |deps| && forall j :: j in deps[i] ==> j in level && i in level && level[j] < level[i]
  }

  /** After `n` layers: `level` says in which one each completed component went. */
  ghost predicate Settling(deps: seq<set<nat>>, level: map<nat, nat>, n: nat) {
    && (forall i :: i in level ==> level[i] < n && DepsLower(deps, level, i))
    && (forall i :: i in level && level[i] > 0 ==> DependsOnLevel(deps, level, i, level[i] - 1))
    && (forall i :: 0 <= i < |deps| && i !in level && n > 0 ==> WaitsFor(deps, level, i, n - 1))
  }

  ghost predicate IsReady(deps: seq<set<nat>>, level: map<nat, nat>, i: nat) {
    i < |deps| && i !in level && deps[i] <= level.Keys
  }

  function Extended(level: map<nat, nat>, ready: set<nat>, n: nat): (r: map<nat, nat>)
    ensures r.Keys == level.Keys + ready
    ensures forall i :: i in r ==> r[i] == if i in ready then n else level[i]
  {
    level + map i | i in ready :: n
  }

  lemma LevelExtends(deps: seq<set<nat>>, level: map<nat, nat>, ready: set<nat>, n: nat, i: nat)
    requires ready !! level.Keys && i in level && (forall j :: j in level ==> level[j] < n)
    ensures DepsLower(deps, level, i) ==> DepsLower(deps, Extended(level, ready, n), i)
    ensures forall v :: DependsOnLevel(deps, level, i, v) ==> DependsOnLevel(deps, Extended(level, ready, n), i, v)
  {
  }

  /** A component that waited for layer `n - 1` and is now ready depends on that layer. */
  lemma ReadyDependsOnLast(deps: seq<set<nat>>, level: map<nat, nat>, ready: set<nat>, n: nat, i: nat)
    requires ready !! level.Keys && IsReady(deps, level, i) && (forall j :: j in level ==> level[j] < n)
    ensures i in ready ==> DepsLower(deps, Extended(level, ready, n), i)
    ensures WaitsFor(deps, level, i, n - 1) ==> DependsOnLevel(deps, Extended(level, ready, n), i, n - 1)
  {
    assert forall j :: j in deps[i] ==> j in level.Keys;
  }

  lemma NotReadyWaits(deps: seq<set<nat>>, level: map<nat, nat>, ready: set<nat>, n: nat, i: nat)
    requires i < |deps| && i !in level && !IsReady(deps, level, i)
    ensures WaitsFor(deps, Extended(level, ready, n), i, n)
  {
    var j :| j in deps[i] && j !in level.Keys;
  }

  lemma SettleLayer(deps: seq<set<nat>>, level: map<nat, nat>, n: nat, ready: set<nat>)
    requires Settling(deps, level, n)
    requires forall i: nat :: i in ready <==> IsReady(deps, level, i)
    ensures Settling(deps, Extended(level, ready, n), n + 1)
  {
    hide DepsLower, DependsOnLevel, WaitsFor;
    forall i | i in ready ensures i !in level.Keys { assert IsReady(deps, level, i); }
    forall i | i in level { LevelExtends(deps, level, ready, n, i); }
    forall i | i in ready
      ensures DepsLower(deps, Extended(level, ready, n), i)
      ensures WaitsFor(deps, level, i, n - 1) ==> DependsOnLevel(deps, Extended(level, ready, n), i, n - 1)
    {
      ReadyDependsOnLast(deps, level, ready, n, i);
    }
    forall i | 0 <= i < |deps| && i !in level && i !in ready ensures WaitsFor(deps, Extended(level, ready, n), i, n) {
      NotReadyWaits(deps, level, ready, n, i);
    }
    assert forall i :: i in ready && n > 0 ==> IsReady(deps, level, i);
  }

  /** Calls only lead to later components, so the last remaining one is always ready: the
      branch for "nothing is ready" is never taken. */
  lemma SomethingReady(deps: seq<set<nat>>, level: map<nat, nat>, remaining: set<nat>)
    requires remaining != {} && forall i: nat :: i in remaining <==> i < |deps| && i !in level
    requires forall i, j :: 0 <= i < |deps| && j in deps[i] ==> i < j < |deps|
    ensures exists i :: IsReady(deps, level, i)
  {
    var some :| some in remaining;
    var i := |deps| - 1;
    while i !in remaining
      invariant some <= i < |deps|
      invariant forall j :: i < j < |deps| ==> j !in remaining
      decreases i
    {
      i := i - 1;
    }
    forall j | j in deps[i] ensures j in level.Keys {}
    assert IsReady(deps, level, i);
  }

  lemma DepsAreLater(g: Graph, groups: seq<set<Id>>, i: nat, j: nat)
    requires Partitions(groups, g.nodes) && CallersFirst(g, groups)
    requires j in GroupDeps(g, groups, i)
    ensures i < j < |groups|
  {
    var f, c :| InGroup(groups, i, f) && InGroup(groups, j, c) && c in Callees(g, f);
    assert InSomeGroup(groups, f) && InSomeGroup(groups, c);
    ReachEdge(g, f, c);
  }

  /** The components at the positions `order`. */
  function Pick(components: seq<seq<Id>>, order: seq<nat>): (r: seq<seq<Id>>)
    ensures |r| == |order|
  {
    seq(|order|, k requires 0 <= k < |order| => if order[k] < |components| then components[order[k]] else [])
  }

  function FirstIds(components: seq<seq<Id>>): seq<Id> {
    seq(|components|, k requires 0 <= k < |components| => if components[k] != [] then components[k][0] else "")
  }

  lemma FirstOf(groups: seq<set<Id>>, nodes: set<Id>, i: nat)
    requires Partitions(groups, nodes) && i < |groups|
    ensures SortEach(groups)[i] != [] && InGroup(groups, i, SortEach(groups)[i][0]) && SortEach(groups)[i][0] in nodes
  {
    assert |Sorted(groups[i])| == |groups[i]|;
    var f := Sorted(groups[i])[0];
    assert f in Sorted(groups[i]);
    assert InGroup(groups, i, f);
    assert InSomeGroup(groups, f);
  }

  function Firsts(components: seq<seq<Id>>, ready: set<nat>): set<Id> {
    set i | i in ready && i < |components| && components[i] != [] :: components[i][0]
  }

  lemma FirstAmong(components: seq<seq<Id>>, ready: set<nat>, i: nat)
    requires i in ready && i < |components| && components[i] != []
    ensures components[i][0] in Firsts(components, ready)
  {
  }

  lemma FirstFrom(components: seq<seq<Id>>, ready: set<nat>, f: Id) returns (i: nat)
    requires f in Firsts(components, ready)
    ensures i in ready && i < |components| && components[i] != [] && components[i][0] == f
  {
    i :| i in ready && i < |components| && components[i] != [] && components[i][0] == f;
  }

  /** `sorted(ready, key=components[...])`: components are disjoint, so comparing two of
      them is comparing their first ids. */
  method SortByComponent(components: seq<seq<Id>>, ghost groups: seq<set<Id>>, ghost nodes: set<Id>,
                         componentFor: map<Id, nat>, ready: set<nat>)
    returns (order: seq<nat>)
    requires components == SortEach(groups) && Partitions(groups, nodes)
    requires componentFor.Keys == nodes
    requires forall f :: f in componentFor ==> InGroup(groups, componentFor[f], f)
    requires forall i :: i in ready ==> i < |groups|
    ensures NoDuplicates(order) && Elements(order) == ready
    ensures Increasing(FirstIds(Pick(components, order)), StrLeq)
  {
    hide InGroup, Partitions, SortEach, Increasing, StrLeq, NoDuplicates, Elements, FirstIds, Pick, Firsts, Known;
    FirstsKnown(groups, nodes, componentFor);
    order := SortByFirst(components, componentFor, ready);
  }

  lemma FirstKnown(components: seq<seq<Id>>, componentFor: map<Id, nat>, ready: set<nat>, first: Id)
    requires forall i :: i in ready ==> Known(components, componentFor, i)
    requires first in Firsts(components, ready)
    ensures first in componentFor
  {
    hide Firsts;
    var i := FirstFrom(components, ready, first);
    assert Known(components, componentFor, i);
  }

  method SortByFirst(components: seq<seq<Id>>, componentFor: map<Id, nat>, ready: set<nat>) returns (order: seq<nat>)
    requires forall i :: i in ready ==> Known(components, componentFor, i)
    ensures NoDuplicates(order) && Elements(order) == ready
    ensures Increasing(FirstIds(Pick(components, order)), StrLeq)
  {
    hide Increasing, StrLeq, NoDuplicates, Elements, FirstIds, Pick, Firsts, Known;
    var firsts := Sorted(Firsts(components, ready));
    order := [];
    for k := 0 to |firsts|
      invariant |order| == k && forall j :: 0 <= j < k ==> firsts[j] in componentFor && order[j] == componentFor[firsts[j]]
    {
      assert firsts[k] in firsts;
      FirstKnown(components, componentFor, ready, firsts[k]);
      order := order + [componentFor[firsts[k]]];
    }
    FirstsGiveOrder(components, componentFor, ready, firsts, order);
  }

  lemma FirstsKnown(groups: seq<set<Id>>, nodes: set<Id>, componentFor: map<Id, nat>)
    requires Partitions(groups, nodes) && componentFor.Keys == nodes
    requires forall f :: f in componentFor ==> InGroup(groups, componentFor[f], f)
    ensures var components := SortEach(groups);
            |components| == |groups| && forall i: nat :: i < |components| ==> Known(components, componentFor, i)
  {
    forall i | 0 <= i < |groups|
      ensures SortEach(groups)[i] != [] && SortEach(groups)[i][0] in componentFor
      ensures componentFor[SortEach(groups)[i][0]] == i
    {
      FirstOf(groups, nodes, i);
    }
  }

  /** `order` lists the components whose first ids are `firsts`. */
  ghost predicate Ordered(components: seq<seq<Id>>, firsts: seq<Id>, order: seq<nat>) {
    && |order| == |firsts|
    && forall k :: 0 <= k < |firsts| ==> order[k] < |components| && components[order[k]] != [] && components[order[k]][0] == firsts[k]
  }

  ghost predicate Known(components: seq<seq<Id>>, componentFor: map<Id, nat>, i: nat) {
    i < |components| && components[i] != [] && components[i][0] in componentFor && componentFor[components[i][0]] == i
  }

  lemma FirstOrders(components: seq<seq<Id>>, componentFor: map<Id, nat>, ready: set<nat>, first: Id, at: nat)
    requires forall i :: i in ready ==> Known(components, componentFor, i)
    requires first in Firsts(components, ready) && first in componentFor && componentFor[first] == at
    ensures at in ready && at < |components| && components[at] != [] && components[at][0] == first
  {
    hide Firsts;
    var i := FirstFrom(components, ready, first);
    assert Known(components, componentFor, i);
  }

  lemma ReadyOrdered(components: seq<seq<Id>>, componentFor: map<Id, nat>, ready: set<nat>,
                     firsts: seq<Id>, order: seq<nat>, i: nat)
    requires Known(components, componentFor, i) && i in ready
    requires forall f :: f in firsts <==> f in Firsts(components, ready)
    requires |order| == |firsts| && forall k :: 0 <= k < |firsts| ==> firsts[k] in componentFor && order[k] == componentFor[firsts[k]]
    ensures i in order
  {
    hide Firsts;
    FirstAmong(components, ready, i);
    var k :| 0 <= k < |firsts| && firsts[k] == components[i][0];
    assert order[k] == i;
  }

  lemma FirstsGiveOrder(components: seq<seq<Id>>, componentFor: map<Id, nat>, ready: set<nat>,
                        firsts: seq<Id>, order: seq<nat>)
    requires forall i :: i in ready ==> Known(components, componentFor, i)
    requires firsts == Sorted(Firsts(components, ready))
    requires |order| == |firsts| && forall k :: 0 <= k < |firsts| ==> firsts[k] in componentFor && order[k] == componentFor[firsts[k]]
    ensures NoDuplicates(order) && Elements(order) == ready
    ensures FirstIds(Pick(components, order)) == firsts
  {
    hide StrLeq, NoDuplicates, FirstIds, Pick, Increasing, Firsts, Known;
    forall k | 0 <= k < |firsts|
      ensures order[k] in ready && order[k] < |components| && components[order[k]] != [] && components[order[k]][0] == firsts[k]
    {
      assert firsts[k] in firsts;
      FirstOrders(components, componentFor, ready, firsts[k], order[k]);
    }
    forall i | i in ready ensures i in order {
      ReadyOrdered(components, componentFor, ready, firsts, order, i);
    }
    OrderedFirsts(components, firsts, order);
  }

  lemma OrderedFirsts(components: seq<seq<Id>>, firsts: seq<Id>, order: seq<nat>)
    requires Ordered(components, firsts, order) && Increasing(firsts, StrLeq)
    ensures NoDuplicates(order) && FirstIds(Pick(components, order)) == firsts
  {
    hide StrLeq;
  }

  /** Slot `l`, `k` holds component `index[l][k]`, and layer `l` the components of level `l`. */
  ghost predicate Laid(components: seq<seq<Id>>, level: map<nat, nat>, index: seq<seq<nat>>, layers: Layers) {
    && |index| == |layers|
    && (forall l :: 0 <= l < |index| ==> NoDuplicates(index[l]) && layers[l] == Pick(components, index[l]))
    && (forall l, k :: 0 <= l < |index| && 0 <= k < |index[l]| ==> HasLevel(components, level, index[l][k], l))
    && (forall i :: i in level ==> level[i] < |index| && i in index[level[i]])
  }

  ghost predicate HasLevel(components: seq<seq<Id>>, level: map<nat, nat>, i: nat, l: int) {
    i < |components| && i in level && level[i] == l
  }

  lemma LaidStep(components: seq<seq<Id>>, level: map<nat, nat>, index: seq<seq<nat>>, layers: Layers,
                 order: seq<nat>, ready: set<nat>)
    requires Laid(components, level, index, layers)
    requires NoDuplicates(order) && Elements(order) == ready && ready !! level.Keys
    requires forall i :: i in ready ==> i < |components|
    ensures Laid(components, Extended(level, ready, |layers|), index + [order], layers + [Pick(components, order)])
  {
    var level', index' := Extended(level, ready, |layers|), index + [order];
    forall l, k | 0 <= l < |index'| && 0 <= k < |index'[l]| ensures HasLevel(components, level', index'[l][k], l) {
      if l < |index| {
        assert index'[l] == index[l];
        assert HasLevel(components, level, index[l][k], l);
      } else {
        assert order[k] in Elements(order);
      }
    }
    forall i | i in level' ensures level'[i] < |index'| && i in index'[level'[i]] {
      if i in ready { assert i in Elements(order); }
    }
  }

  function Range(n: nat): (r: set<nat>)
    ensures forall i: nat :: i in r <==> i < n
  {
    if n == 0 then {} else Range(n - 1) + {n - 1}
  }

  /** One layer: the components whose dependencies are completed, in order. */
  method NextLayer(components: seq<seq<Id>>, componentFor: map<Id, nat>, deps: seq<set<nat>>,
                   ghost groups: seq<set<Id>>, ghost nodes: set<Id>, ghost level: map<nat, nat>, remaining: set<nat>,
                   completed: set<nat>)
    returns (ready: set<nat>, order: seq<nat>)
    requires components == SortEach(groups) && Partitions(groups, nodes) && |deps| == |groups|
    requires componentFor.Keys == nodes
    requires forall f :: f in componentFor ==> InGroup(groups, componentFor[f], f)
    requires forall i, j :: 0 <= i < |deps| && j in deps[i] ==> i < j < |deps|
    requires remaining != {} && completed == level.Keys
    requires forall i: nat :: i in remaining <==> i < |deps| && i !in level
    ensures forall i: nat :: i in ready <==> IsReady(deps, level, i)
    ensures ready != {} && ready <= remaining
    ensures order != [] && NoDuplicates(order) && Elements(order) == ready
    ensures Increasing(FirstIds(Pick(components, order)), StrLeq)
  {
    ready := set i | i in remaining && deps[i] <= completed;
    SomethingReady(deps, level, remaining);
    ghost var r :| IsReady(deps, level, r);
    order := SortByComponent(components, groups, nodes, componentFor, ready);
    assert r in Elements(order);
  }

  /** The loop of `dependency_layers`. */
  method LayerComponents(components: seq<seq<Id>>, componentFor: map<Id, nat>, deps: seq<set<nat>>,
                         ghost groups: seq<set<Id>>, ghost nodes: set<Id>)
    returns (layers: Layers, ghost level: map<nat, nat>, ghost index: seq<seq<nat>>)
    requires components == SortEach(groups) && Partitions(groups, nodes) && |deps| == |groups|
    requires componentFor.Keys == nodes
    requires forall f :: f in componentFor ==> InGroup(groups, componentFor[f], f)
    requires forall i, j :: 0 <= i < |deps| && j in deps[i] ==> i < j < |deps|
    ensures Laid(components, level, index, layers) && Settling(deps, level, |layers|)
    ensures forall i: nat :: i in level <==> i < |deps|
    ensures forall l :: 0 <= l < |layers| ==> layers[l] != [] && Increasing(FirstIds(layers[l]), StrLeq)
  {
    hide Settling, Laid, Increasing, FirstIds, Partitions, InGroup, SortEach, Pick;
    SameLength(groups);
    layers, level, index := [], map[], [];
    var remaining := Range(|components|);
    var completed: set<nat> := {};
    NothingLaid(components, deps);
    while remaining != {}
      invariant completed == level.Keys
      invariant forall i: nat :: i in remaining <==> i < |deps| && i !in level
      invariant forall i: nat :: i in level ==> i < |deps|
      invariant Laid(components, level, index, layers) && Settling(deps, level, |layers|)
      invariant forall l :: 0 <= l < |layers| ==> layers[l] != [] && Increasing(FirstIds(layers[l]), StrLeq)
      decreases remaining
    {
      var ready, order := NextLayer(components, componentFor, deps, groups, nodes, level, remaining, completed);
      SettleLayer(deps, level, |layers|, ready);
      assert forall i :: i in ready ==> IsReady(deps, level, i);
      LaidStep(components, level, index, layers, order, ready);
      level := Extended(level, ready, |layers|);
      index := index + [order];
      layers := layers + [Pick(components, order)];
      completed := completed + ready;
      remaining := remaining - ready;
    }
  }

  lemma NothingLaid(components: seq<seq<Id>>, deps: seq<set<nat>>)
    ensures Laid(components, map[], [], []) && Settling(deps, map[], 0)
  {
  }

  // ------------------------------------------------ what the layers guarantee

  /** Everything the loop of `dependency_layers` leaves behind. */
  ghost predicate LayersOf(g: Graph, groups: seq<set<Id>>, deps: seq<set<nat>>, level: map<nat, nat>,
                           index: seq<seq<nat>>, layers: Layers) {
    && Partitions(groups, g.nodes) && |deps| == |groups|
    && (forall i :: 0 <= i < |groups| ==> deps[i] == GroupDeps(g, groups, i))
    && Laid(SortEach(groups), level, index, layers) && Settling(deps, level, |layers|)
    && (forall i: nat :: i in level <==> i < |deps|)
  }

  lemma SlotHoldsGroup(g: Graph, groups: seq<set<Id>>, deps: seq<set<nat>>, level: map<nat, nat>,
                       index: seq<seq<nat>>, layers: Layers, l: int, k: int)
    requires LayersOf(g, groups, deps, level, index, layers) && Slot(layers, l, k)
    ensures 0 <= l < |index| && 0 <= k < |index[l]| && HasLevel(SortEach(groups), level, index[l][k], l)
    ensures forall f :: Placed(layers, l, k, f) <==> InGroup(groups, index[l][k], f)
  {
    assert layers[l] == Pick(SortEach(groups), index[l]);
    assert HasLevel(SortEach(groups), level, index[l][k], l);
    InComponents(groups, index[l][k]);
  }

  lemma InComponents(groups: seq<set<Id>>, i: nat)
    requires i < |groups|
    ensures forall f :: f in SortEach(groups)[i] <==> InGroup(groups, i, f)
  {
  }

  /** The slot of component `i`. */
  lemma GroupHasSlot(g: Graph, groups: seq<set<Id>>, deps: seq<set<nat>>, level: map<nat, nat>,
                     index: seq<seq<nat>>, layers: Layers, i: nat) returns (k: nat)
    requires LayersOf(g, groups, deps, level, index, layers) && i < |groups|
    ensures i in level && Slot(layers, level[i], k) && k < |index[level[i]]| && index[level[i]][k] == i
  {
    var l := level[i];
    k :| 0 <= k < |index[l]| && index[l][k] == i;
    assert layers[l] == Pick(SortEach(groups), index[l]);
  }

  lemma SlotsPartition(g: Graph, groups: seq<set<Id>>, deps: seq<set<nat>>, level: map<nat, nat>,
                       index: seq<seq<nat>>, layers: Layers)
    requires LayersOf(g, groups, deps, level, index, layers)
    ensures forall f :: f in g.nodes <==> PlacedSomewhere(layers, f)
    ensures forall l, k, l', k', f :: Placed(layers, l, k, f) && Placed(layers, l', k', f) ==> l == l' && k == k'
  {
    hide Settling, Laid;
    forall f | f in g.nodes ensures PlacedSomewhere(layers, f) {
      assert InSomeGroup(groups, f);
      var i :| InGroup(groups, i, f);
      var k := GroupHasSlot(g, groups, deps, level, index, layers, i);
      SlotHoldsGroup(g, groups, deps, level, index, layers, level[i], k);
      assert Placed(layers, level[i], k, f);
    }
    forall f | PlacedSomewhere(layers, f) ensures f in g.nodes {
      var l, k :| Placed(layers, l, k, f);
      SlotHoldsGroup(g, groups, deps, level, index, layers, l, k);
      assert InSomeGroup(groups, f);
    }
    forall l, k, l', k', f | Placed(layers, l, k, f) && Placed(layers, l', k', f) ensures l == l' && k == k' {
      SlotHoldsGroup(g, groups, deps, level, index, layers, l, k);
      SlotHoldsGroup(g, groups, deps, level, index, layers, l', k');
      SameIndex(SortEach(groups), level, index, layers, l, k, k');
    }
  }

  lemma SameIndex(components: seq<seq<Id>>, level: map<nat, nat>, index: seq<seq<nat>>, layers: Layers, l: nat, k: nat, k': nat)
    requires Laid(components, level, index, layers) && l < |index| && k < |index[l]|
    ensures k' < |index[l]| && index[l][k] == index[l][k'] ==> k == k'
  {
  }

  lemma SlotCallsGroup(g: Graph, groups: seq<set<Id>>, deps: seq<set<nat>>, level: map<nat, nat>,
                       index: seq<seq<nat>>, layers: Layers, l: int, k: int, l': int, k': int)
    requires LayersOf(g, groups, deps, level, index, layers)
    requires Slot(layers, l, k) && Slot(layers, l', k')
    ensures 0 <= l < |index| && 0 <= k < |index[l]| && 0 <= l' < |index| && 0 <= k' < |index[l']|
    ensures SlotCalls(g, layers, l, k, l', k') <==> GroupCalls(g, groups, index[l][k], index[l'][k'])
  {
    hide Settling, Laid;
    SlotHoldsGroup(g, groups, deps, level, index, layers, l, k);
    SlotHoldsGroup(g, groups, deps, level, index, layers, l', k');
    if GroupCalls(g, groups, index[l][k], index[l'][k']) {
      var f, c :| InGroup(groups, index[l][k], f) && InGroup(groups, index[l'][k'], c) && c in Callees(g, f);
      assert InSomeGroup(groups, f) && InSomeGroup(groups, c);
      assert Edge(g, f, c) && Placed(layers, l, k, f) && Placed(layers, l', k', c);
    }
    if SlotCalls(g, layers, l, k, l', k') {
      var f, c :| Edge(g, f, c) && Placed(layers, l, k, f) && Placed(layers, l', k', c);
      assert InGroup(groups, index[l][k], f) && InGroup(groups, index[l'][k'], c);
    }
  }

  lemma CalleesEarlier(g: Graph, groups: seq<set<Id>>, deps: seq<set<nat>>, level: map<nat, nat>,
                       index: seq<seq<nat>>, layers: Layers, l: int, k: int, l': int, k': int)
    requires LayersOf(g, groups, deps, level, index, layers)
    requires SlotCalls(g, layers, l, k, l', k')
    ensures (l == l' && k == k') || l' < l
  {
    SlotCallsGroup(g, groups, deps, level, index, layers, l, k, l', k');
    SlotHoldsGroup(g, groups, deps, level, index, layers, l, k);
    SlotHoldsGroup(g, groups, deps, level, index, layers, l', k');
    var i, j := index[l][k], index[l'][k'];
    if i == j {
      SameIndex(SortEach(groups), level, index, layers, l, k, k');
    } else {
      assert j in deps[i];
      assert DepsLower(deps, level, i);
    }
  }

  lemma DependencyBelow(deps: seq<set<nat>>, level: map<nat, nat>, n: nat, i: nat) returns (j: nat)
    requires Settling(deps, level, n) && i in level && level[i] > 0
    ensures i < |deps| && j in deps[i] && j in level && level[j] == level[i] - 1
  {
    assert DependsOnLevel(deps, level, i, level[i] - 1);
    j :| j in deps[i] && j in level && level[j] == level[i] - 1;
  }

  lemma CallsLayerBelow(g: Graph, groups: seq<set<Id>>, deps: seq<set<nat>>, level: map<nat, nat>,
                        index: seq<seq<nat>>, layers: Layers, l: int, k: int)
    requires LayersOf(g, groups, deps, level, index, layers)
    requires Slot(layers, l, k) && 0 < l
    ensures CallsLayer(g, layers, l, k, l - 1)
  {
    hide Settling, SlotCalls, Laid, Partitions, SortEach, GroupCalls;
    SlotHoldsGroup(g, groups, deps, level, index, layers, l, k);
    var j := DependencyBelow(deps, level, |layers|, index[l][k]);
    var k' := GroupHasSlot(g, groups, deps, level, index, layers, j);
    SlotCallsGroup(g, groups, deps, level, index, layers, l, k, l - 1, k');
    assert SlotCalls(g, layers, l, k, l - 1, k');
  }

  lemma LayersAreLayered(g: Graph, groups: seq<set<Id>>, deps: seq<set<nat>>, level: map<nat, nat>,
                         index: seq<seq<nat>>, layers: Layers)
    requires LayersOf(g, groups, deps, level, index, layers)
    ensures Layered(g, layers)
  {
    hide LayersOf, SlotCalls;
    SlotsPartition(g, groups, deps, level, index, layers);
    forall l, k, l', k' | SlotCalls(g, layers, l, k, l', k') ensures (l == l' && k == k') || l' < l {
      CalleesEarlier(g, groups, deps, level, index, layers, l, k, l', k');
    }
    forall l, k | Slot(layers, l, k) && 0 < l ensures CallsLayer(g, layers, l, k, l - 1) {
      CallsLayerBelow(g, groups, deps, level, index, layers, l, k);
    }
  }

  /** The slots hold exactly the sorted groups. */
  lemma SlotsHoldGroups(g: Graph, groups: seq<set<Id>>, deps: seq<set<nat>>, level: map<nat, nat>,
                        index: seq<seq<nat>>, layers: Layers)
    requires LayersOf(g, groups, deps, level, index, layers)
    ensures forall l, k :: Slot(layers, l, k) ==> layers[l][k] in SortEach(groups)
    ensures forall c :: c in SortEach(groups) ==> exists l :: 0 <= l < |layers| && c in layers[l]
  {
    hide LayersOf, SortEach;
    SameLength(groups);
    forall l, k | Slot(layers, l, k) ensures layers[l][k] in SortEach(groups) {
      SlotIsGroup(g, groups, deps, level, index, layers, l, k);
    }
    forall c | c in SortEach(groups) ensures exists l :: 0 <= l < |layers| && c in layers[l] {
      var i :| 0 <= i < |groups| && SortEach(groups)[i] == c;
      GroupIsPlaced(g, groups, deps, level, index, layers, i);
    }
  }

  lemma SlotIsGroup(g: Graph, groups: seq<set<Id>>, deps: seq<set<nat>>, level: map<nat, nat>,
                    index: seq<seq<nat>>, layers: Layers, l: int, k: int)
    requires LayersOf(g, groups, deps, level, index, layers) && Slot(layers, l, k)
    ensures layers[l][k] in SortEach(groups)
  {
    SlotHoldsGroup(g, groups, deps, level, index, layers, l, k);
  }

  lemma GroupIsPlaced(g: Graph, groups: seq<set<Id>>, deps: seq<set<nat>>, level: map<nat, nat>,
                      index: seq<seq<nat>>, layers: Layers, i: nat)
    requires LayersOf(g, groups, deps, level, index, layers) && i < |groups| == |SortEach(groups)|
    ensures exists l :: 0 <= l < |layers| && SortEach(groups)[i] in layers[l]
  {
    var k := GroupHasSlot(g, groups, deps, level, index, layers, i);
    assert layers[level[i]] == Pick(SortEach(groups), index[level[i]]);
    assert layers[level[i]][k] == SortEach(groups)[i];
  }

  /** `dependency_layers`; `None` stands for the `KeyError` on an unknown callee. */
  method DependencyLayers(g: Graph) returns (r: Option<Layers>)
    ensures r.None? <==> CalleeUnknown(g)
    ensures r.Some? ==> Layered(g, r.value)
    ensures r.Some? ==> forall l, k :: Slot(r.value, l, k) ==> r.value[l][k] in SortEach(GroupsAsWritten(g))
    ensures r.Some? ==> forall c :: c in SortEach(GroupsAsWritten(g)) ==> exists l :: 0 <= l < |r.value| && c in r.value[l]
    ensures r.Some? ==> forall l :: 0 <= l < |r.value| ==> r.value[l] != [] && Increasing(FirstIds(r.value[l]), StrLeq)
  {
    hide Layered, Laid, Settling, CallersFirst, GroupsAsWritten, Increasing, Partitions, InGroup, GroupDeps, CalleeUnknown,
         SortEach, FirstIds, StrLeq;
    var components := StronglyConnectedComponents(g);
    ghost var groups := GroupsAsWritten(g);
    var componentFor := ComponentFor(components, groups, g.nodes);
    var deps := ComponentDependencies(g, components, componentFor, groups);
    if deps.None? { return None; }
    forall i, j | 0 <= i < |deps.value| && j in deps.value[i] ensures i < j < |deps.value| {
      DepsAreLater(g, groups, i, j);
    }
    var layers, level, index := LayerComponents(components, componentFor, deps.value, groups, g.nodes);
    assert LayersOf(g, groups, deps.value, level, index, layers);
    LayersAreLayered(g, groups, deps.value, level, index, layers);
    SlotsHoldGroups(g, groups, deps.value, level, index, layers);
    r := Some(layers);
  }

  /** Mutually recursive functions end up in the same slot, although the groups may be
      coarser than the strongly connected components. */
  lemma RecursionSharesSlot(g: Graph, layers: Layers, u: Id, v: Id, p: seq<Id>, q: seq<Id>, l: int, k: int)
    requires Layered(g, layers) && Placed(layers, l, k, u)
    requires IsWalk(g, p, u, v) && IsWalk(g, q, v, u)
    ensures Placed(layers, l, k, v)
  {
    assert PlacedSomewhere(layers, v);
    var l', k' :| Placed(layers, l', k', v);
    WalkDescends(g, layers, p, u, v, l, k, l', k');
    WalkDescends(g, layers, q, v, u, l', k', l, k);
  }

  lemma {:induction false} WalkDescends(g: Graph, layers: Layers, p: seq<Id>, u: Id, v: Id, l: int, k: int, l': int, k': int)
    requires Layered(g, layers) && IsWalk(g, p, u, v)
    requires Placed(layers, l, k, u) && Placed(layers, l', k', v)
    ensures (l == l' && k == k') || l' < l
    decreases |p|
  {
    if |p| > 1 {
      assert Edge(g, p[0], p[1]);
      assert PlacedSomewhere(layers, p[1]);
      var l1, k1 :| Placed(layers, l1, k1, p[1]);
      assert SlotCalls(g, layers, l, k, l1, k1);
      WalkDescends(g, layers, p[1..], p[1], v, l1, k1, l', k');
    }
  }
}
