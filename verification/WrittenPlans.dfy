/** The plans of `SummaryCoverage` are those that the code makes from their calls. */
module WrittenPlans {
  import opened Orders
  import opened CallGraph
  import opened Grouping
  import opened Kosaraju
  import opened FinishingOrder
  import opened Layering
  import opened SummaryPlan
  import opened SummaryCoverage
  import opened ReducedCalls
  import opened WrittenPass

  /** Layers as `dependency_layers` promises them, and the tasks made from them. */
  ghost predicate Produced(g: Graph, layers: Layers, s: Schedule) {
    && Layered(g, layers) && !CalleeUnknown(g) && TasksOf(layers, s) && NothingEmpty(layers)
    && forall l, k :: Slot(layers, l, k) ==> layers[l][k] in SortEach(GroupsAsWritten(g))
  }

  /** What the code makes of a graph. */
  method Produce(g: Graph) returns (layers: Layers, s: Schedule)
    requires !CalleeUnknown(g)
    ensures Produced(g, layers, s)
  {
    hide Layered, CalleeUnknown, TaskFor, Increasing, SortEach, GroupsAsWritten;
    var r := DependencyLayers(g);
    layers := r.value;
    s := Tasks(layers);
    OrderAsWrittenIsPermutation(g);
    AnyOrderGroups(g, OrderAsWritten(g));
    GroupsAreSorted(g);
  }

  lemma GroupsAreSorted(g: Graph)
    ensures forall c :: c in SortEach(GroupsAsWritten(g)) ==> c != []
  {
    hide Increasing, OrderAsWritten;
    OrderAsWrittenIsPermutation(g);
    AnyOrderGroups(g, OrderAsWritten(g));
    SortedGroups(GroupsAsWritten(g), g.nodes);
  }

  ghost predicate IsGroup(groups: seq<set<Id>>, group: set<Id>, f: Id) {
    exists i :: InGroup(groups, i, f) && groups[i] == group
  }

  lemma SlotIsOneGroup(groups: seq<set<Id>>, c: seq<Id>, f: Id)
    requires c in SortEach(groups) && f in c
    ensures IsGroup(groups, Elements(c), f)
  {
    hide SortEach;
    SameLength(groups);
    var i :| 0 <= i < |SortEach(groups)| && SortEach(groups)[i] == c;
    InComponents(groups, i);
    assert forall x :: x in Elements(c) <==> x in groups[i];
    assert Elements(c) == groups[i];
  }

  /** The group of every task is a group as written. */
  lemma TaskGroup(g: Graph, layers: Layers, s: Schedule, f: Id)
    requires Produced(g, layers, s) && f in g.nodes
    ensures f in s.groupOf && IsGroup(GroupsAsWritten(g), s.groupOf[f], f)
  {
    hide Layered, GroupsAsWritten, NothingEmpty, CalleeUnknown, SortEach, IsGroup;
    KeysAreNodes(g, layers, s);
    var l := s.layerOf[f];
    var k :| Placed(layers, l, k, f) && s.groupOf[f] == Elements(layers[l][k]);
    SlotIsOneGroup(GroupsAsWritten(g), layers[l][k], f);
  }

  lemma ProducedIs(g: Graph, layers: Layers, s: Schedule, expected: Schedule)
    requires Produced(g, layers, s) && ValidSchedule(g, expected) && Tight(g, expected)
    requires forall f :: f in g.nodes ==> f in expected.groupOf
    requires forall f, group :: f in g.nodes && IsGroup(GroupsAsWritten(g), group, f) ==> group == expected.groupOf[f]
    ensures s == expected
  {
    hide Layered, GroupsAsWritten, NothingEmpty, CalleeUnknown, Tight, IsGroup, GoodTask, TasksOf;
    TasksValid(g, layers, s);
    TasksAreTight(g, layers, s);
    forall f | f in g.nodes ensures s.groupOf[f] == expected.groupOf[f] {
      TaskGroup(g, layers, s, f);
    }
    assert s.groupOf == expected.groupOf;
    ScheduleUnique(g, s, expected);
  }

  lemma TasksValid(g: Graph, layers: Layers, s: Schedule)
    requires Layered(g, layers) && TasksOf(layers, s) && !CalleeUnknown(g)
    ensures ValidSchedule(g, s)
  {
    hide Layered, CalleeUnknown, TaskFor;
    TasksAreValid(g, layers, s);
  }

  lemma CallsBelowBy(g: Graph, s: Schedule, f: Id, u: Id, c: Id)
    requires f in s.groupOf && u in s.groupOf[f] && c in Callees(g, u) && f in s.layerOf && c in s.layerOf
    requires s.layerOf[c] + 1 == s.layerOf[f]
    ensures CallsBelow(g, s, f)
  {
  }

  lemma InhabitedBy(s: Schedule, f: Id)
    requires f in s.layerOf
    ensures Inhabited(s, s.layerOf[f])
  {
  }

  // ------------------------------------------------ f and g call each other, g calls x

  const RECURSIVE_CALLS: Graph := RECURSIVE.g

  lemma RecursiveEdges(u: Id, v: Id)
    ensures Edge(RECURSIVE_CALLS, u, v) <==> (u, v) in {("f", "g"), ("g", "f"), ("g", "x")}
  {
  }

  lemma RecursiveClasses(u: Id, v: Id)
    requires u in {"f", "g", "x"} && v in {"f", "g", "x"}
    ensures Mutual(RECURSIVE_CALLS, u, v) <==> (u == v || (u != "x" && v != "x"))
  {
    hide IsWalk, Edge;
    var g := RECURSIVE_CALLS;
    RecursiveEdges("f", "g");
    RecursiveEdges("g", "f");
    ReachSelf(g, "f");
    ReachSelf(g, "g");
    ReachSelf(g, "x");
    ReachEdge(g, "f", "g");
    ReachEdge(g, "g", "f");
    if Reach(g, "x", v) && v != "x" {
      XStays(v);
    }
    if Reach(g, "x", u) && u != "x" {
      XStays(u);
    }
  }

  lemma XStays(v: Id)
    requires Reach(RECURSIVE_CALLS, "x", v)
    ensures v == "x"
  {
    hide IsWalk;
    forall y ensures !Edge(RECURSIVE_CALLS, "x", y) {
      RecursiveEdges("x", y);
    }
    var walk :| IsWalk(RECURSIVE_CALLS, walk, "x", v);
    StaysInside(RECURSIVE_CALLS, {"x"}, "x", v, walk);
  }

  /** The only call between classes is that of `x` by `g`. */
  lemma RecursiveHasNoDetours()
    ensures NoDetours(RECURSIVE_CALLS)
  {
    hide Mutual, Reach, Edge;
    var g := RECURSIVE_CALLS;
    forall c, y | CallsClass(g, c, y) ensures c == "g" {
      var z :| Edge(g, c, z) && Mutual(g, z, y);
      RecursiveEdges(c, z);
      if c == "f" {
        InNodes(y, z);
        RecursiveClasses("f", "g");
        MutualTransitive(g, "f", "g", y);
      }
    }
    RecursiveClasses("g", "g");
  }

  lemma InNodes(y: Id, z: Id)
    requires Mutual(RECURSIVE_CALLS, z, y)
    ensures y in {"f", "g", "x"}
  {
    hide Reach;
    ReachInNodes(RECURSIVE_CALLS, z, y);
  }

  lemma RecursiveIsTight()
    ensures Tight(RECURSIVE_CALLS, RECURSIVE.schedule)
  {
    hide CallsBelow, Inhabited;
    var s := RECURSIVE.schedule;
    InhabitedBy(s, "x");
    InhabitedBy(s, "f");
    CallsBelowBy(RECURSIVE_CALLS, s, "f", "g", "x");
    CallsBelowBy(RECURSIVE_CALLS, s, "g", "g", "x");
  }

  /** What the code makes of these calls is the schedule of `RECURSIVE`. */
  lemma RecursiveIsProduced(layers: Layers, s: Schedule)
    requires Produced(RECURSIVE_CALLS, layers, s)
    ensures s == RECURSIVE.schedule
  {
    hide Mutual, Produced, Tight, GoodTask, NoDetours, GroupsAsWritten;
    RecursiveIsValid();
    RecursiveIsTight();
    RecursiveHasNoDetours();
    WithoutDetoursExact(RECURSIVE_CALLS);
    forall f, group | f in RECURSIVE_CALLS.nodes && IsGroup(GroupsAsWritten(RECURSIVE_CALLS), group, f)
      ensures group == RECURSIVE.schedule.groupOf[f]
    {
      ExactGroupIs(f, group);
    }
    ProducedIs(RECURSIVE_CALLS, layers, s, RECURSIVE.schedule);
  }

  lemma ExactGroupIs(f: Id, group: set<Id>)
    requires ExactGroups(RECURSIVE_CALLS, GroupsAsWritten(RECURSIVE_CALLS)) && f in RECURSIVE_CALLS.nodes
    requires IsGroup(GroupsAsWritten(RECURSIVE_CALLS), group, f)
    ensures group == RECURSIVE.schedule.groupOf[f]
  {
    hide Mutual, GroupsAsWritten;
    GroupInNodes(RECURSIVE_CALLS, group, f);
    forall v | v in {"f", "g", "x"} ensures v in group <==> v in RECURSIVE.schedule.groupOf[f] {
      RecursiveClasses(f, v);
    }
  }

  lemma GroupInNodes(g: Graph, group: set<Id>, f: Id)
    requires IsGroup(GroupsAsWritten(g), group, f)
    ensures group <= g.nodes
  {
    hide OrderAsWritten, Groups;
    OrderAsWrittenIsPermutation(g);
    AnyOrderGroups(g, OrderAsWritten(g));
    var groups := GroupsAsWritten(g);
    var i :| InGroup(groups, i, f) && groups[i] == group;
    forall x | x in group ensures x in g.nodes {
      assert InGroup(groups, i, x) && InSomeGroup(groups, x);
    }
  }

  // ------------------------------------------------ 1 calls 2 and 3, 2 calls 0 and 3

  const COARSE_CALLS: Graph := COARSE.g

  const ALL := {"0", "1", "2", "3"}

  lemma CoarseEdges(u: Id, v: Id)
    ensures Edge(COARSE_CALLS, u, v) <==> (u, v) in {("1", "2"), ("1", "3"), ("2", "0"), ("2", "3")}
  {
  }

  lemma CoarseCalleeSets()
    ensures Callees(COARSE_CALLS, "0") == {} && Callees(COARSE_CALLS, "1") == {"2", "3"}
    ensures Callees(COARSE_CALLS, "2") == {"0", "3"} && Callees(COARSE_CALLS, "3") == {}
  {
  }

  lemma SortedTwo(x: Id, y: Id)
    requires StrLeq(x, y) && x != y
    ensures Sorted({x, y}) == [x, y] && Reversed([x, y]) == [y, x]
  {
    hide StrLeq;
    SortedUnique([x, y], {x, y});
  }

  lemma SortedNone()
    ensures Sorted({}) == [] && Reversed<Id>([]) == []
  {
    hide StrLeq;
    SortedUnique([], {});
  }

  lemma CoarseCallees()
    ensures SortedCallees(COARSE_CALLS, "0") == [] && SortedCallees(COARSE_CALLS, "3") == []
    ensures SortedCallees(COARSE_CALLS, "1") == ["3", "2"] && SortedCallees(COARSE_CALLS, "2") == ["3", "0"]
  {
    hide Callees, Sorted, Reversed;
    CoarseCalleeSets();
    SortedNone();
    SortedTwo("2", "3");
    SortedTwo("0", "3");
  }

  lemma CoarseSorted()
    ensures Sorted(COARSE_CALLS.nodes) == ["0", "1", "2", "3"]
  {
    assert COARSE_CALLS.nodes == ALL;
    SortedUnique(["0", "1", "2", "3"], ALL);
  }

  /** A function without callees is finished as soon as it is expanded. */
  lemma LeafFinishes(g: Graph, below: seq<Frame>, node: Id, visited: set<Id>, order: seq<Id>)
    requires SortedCallees(g, node) == []
    ensures RunAsWritten(g, Pass(below + [Frame(node, false)], visited, order)) == RunAsWritten(g, Pass(below, visited, order + [node]))
  {
    hide RunAsWritten, StepAsWritten, SortedCallees;
    ExpandStep(g, below, node, visited, order);
    FinishStep(g, below, node, visited, order);
  }

  lemma CoarseZero()
    ensures RunAsWritten(COARSE_CALLS, Pass([Frame("0", false)], {"0"}, [])) == Pass([], {"0"}, ["0"])
  {
    hide StepAsWritten, SortedCallees;
    CoarseCallees();
    LeafFinishes(COARSE_CALLS, [], "0", {"0"}, []);
    assert [] + [Frame("0", false)] == [Frame("0", false)] && [] + ["0"] == ["0"];
  }

  /** Both callees of 1 are marked when they are pushed; 2 finds its callees marked. */
  lemma CoarseOne()
    ensures RunAsWritten(COARSE_CALLS, Pass([Frame("1", false)], {"0", "1"}, ["0"])) ==
            RunAsWritten(COARSE_CALLS, Pass([Frame("1", true), Frame("3", false), Frame("2", false)], ALL, ["0"]))
  {
    hide RunAsWritten, StepAsWritten, PushUnmarked, SortedCallees;
    CoarseCallees();
    ExpandStep(COARSE_CALLS, [], "1", {"0", "1"}, ["0"]);
    assert [] + [Frame("1", false)] == [Frame("1", false)] && [] + [Frame("1", true)] == [Frame("1", true)];
    TwoPushes(COARSE_CALLS, "3", "2", Pass([Frame("1", true)], {"0", "1"}, ["0"]));
    assert [Frame("1", true)] + [Frame("3", false), Frame("2", false)] == [Frame("1", true), Frame("3", false), Frame("2", false)];
    assert {"0", "1"} + {"3", "2"} == ALL;
  }

  lemma CoarseTwo(below: seq<Frame>)
    ensures RunAsWritten(COARSE_CALLS, Pass(below + [Frame("2", false)], ALL, ["0"])) ==
            RunAsWritten(COARSE_CALLS, Pass(below, ALL, ["0", "2"]))
  {
    hide RunAsWritten, StepAsWritten, SortedCallees;
    CoarseCallees();
    var g, pass := COARSE_CALLS, Pass(below + [Frame("2", true)], ALL, ["0"]);
    ExpandStep(g, below, "2", ALL, ["0"]);
    PushMarked(g, "3", ["0"], pass);
    PushMarked(g, "0", [], pass);
    assert ["3"] + ["0"] == ["3", "0"] && ["0"] + [] == ["0"];
    FinishStep(g, below, "2", ALL, ["0"]);
    assert ["0"] + ["2"] == ["0", "2"];
  }

  lemma CoarseRun()
    ensures RunAsWritten(COARSE_CALLS, Pass([Frame("1", false)], {"0", "1"}, ["0"])) == Pass([], ALL, ["0", "2", "3", "1"])
  {
    hide StepAsWritten, SortedCallees;
    var a, b, c := Frame("1", true), Frame("3", false), Frame("2", false);
    CoarseOne();
    CoarseTwo([a, b]);
    assert [a, b] + [c] == [a, b, c];
    CoarseCallees();
    LeafFinishes(COARSE_CALLS, [a], "3", ALL, ["0", "2"]);
    assert [a] + [b] == [a, b] && ["0", "2"] + ["3"] == ["0", "2", "3"];
    FinishStep(COARSE_CALLS, [], "1", ALL, ["0", "2", "3"]);
    assert [] + [a] == [a] && ["0", "2", "3"] + ["1"] == ["0", "2", "3", "1"];
  }

  lemma CoarseStarts()
    ensures ["0"] + ["1", "2", "3"] == ["0", "1", "2", "3"] && ["1"] + ["2", "3"] == ["1", "2", "3"]
    ensures ["2"] + ["3"] == ["2", "3"] && ["3"] + [] == ["3"]
    ensures {} + {"0"} == {"0"} && {"0"} + {"1"} == {"0", "1"}
  {
  }

  lemma CoarseOrder()
    ensures OrderAsWritten(COARSE_CALLS) == ["0", "2", "3", "1"]
  {
    hide RunAsWritten, PassFrom, Sorted;
    CoarseSorted();
    CoarseZero();
    CoarseRun();
    CoarseStarts();
    var g, end := COARSE_CALLS, Pass([], ALL, ["0", "2", "3", "1"]);
    PassStarts(g, "0", ["1", "2", "3"], Pass([], {}, []));
    PassStarts(g, "1", ["2", "3"], Pass([], {"0"}, ["0"]));
    PassSkips(g, "2", ["3"], end);
    PassSkips(g, "3", [], end);
    NoStarts(g, end);
  }

  lemma CoarseReach(u: Id, v: Id)
    requires u in ALL && v in ALL
    ensures Reach(COARSE_CALLS, u, v) <==> (u == v || (u, v) in {("1", "2"), ("1", "3"), ("2", "0"), ("2", "3"), ("1", "0")})
  {
    hide IsWalk, Edge;
    var g := COARSE_CALLS;
    ReachSelf(g, u);
    forall x, y | (x, y) in {("1", "2"), ("1", "3"), ("2", "0"), ("2", "3")} ensures Reach(g, x, y) {
      CoarseEdges(x, y);
      ReachEdge(g, x, y);
    }
    ReachTransitive(g, "1", "2", "0");
    if Reach(g, u, v) {
      CoarseStays(u, v);
    }
  }

  lemma CoarseStays(u: Id, v: Id)
    requires u in ALL && Reach(COARSE_CALLS, u, v)
    ensures v in (if u == "1" then ALL else if u == "2" then {"0", "2", "3"} else {u})
  {
    hide IsWalk;
    var inside := if u == "1" then ALL else if u == "2" then {"0", "2", "3"} else {u};
    forall x, y | x in inside && Edge(COARSE_CALLS, x, y) ensures y in inside {
      CoarseEdges(x, y);
    }
    var walk :| IsWalk(COARSE_CALLS, walk, u, v);
    StaysInside(COARSE_CALLS, inside, u, v, walk);
  }

  lemma CoarseAncestors()
    ensures Ancestors(COARSE_CALLS, "1") == {"1"} && Ancestors(COARSE_CALLS, "3") == {"1", "2", "3"}
    ensures Ancestors(COARSE_CALLS, "0") == {"0", "1", "2"} && Ancestors(COARSE_CALLS, "2") == {"1", "2"}
  {
    hide Reach;
    assert COARSE_CALLS.nodes == ALL;
    forall u, v | u in ALL && v in ALL
      ensures Reach(COARSE_CALLS, u, v) <==> (u == v || (u, v) in {("1", "2"), ("1", "3"), ("2", "0"), ("2", "3"), ("1", "0")})
    {
      CoarseReach(u, v);
    }
  }

  lemma CoarseUps()
    ensures Up(COARSE_CALLS, []) == {} && Up(COARSE_CALLS, ["1"]) == {"1"}
    ensures Up(COARSE_CALLS, ["1", "3"]) == {"1", "2", "3"} && Up(COARSE_CALLS, ["1", "3", "2"]) == {"1", "2", "3"}
  {
    hide Up, Ancestors;
    CoarseAncestors();
    NothingUp(COARSE_CALLS);
    UpSnoc(COARSE_CALLS, [], "1");
    UpSnoc(COARSE_CALLS, ["1"], "3");
    UpSnoc(COARSE_CALLS, ["1", "3"], "2");
    assert [] + ["1"] == ["1"] && ["1"] + ["3"] == ["1", "3"] && ["1", "3"] + ["2"] == ["1", "3", "2"];
  }

  lemma NothingUp(g: Graph)
    ensures Up(g, []) == {}
  {
  }

  /** The second pass puts 2 and 3 into one group. */
  lemma CoarseGroups()
    ensures GroupsAsWritten(COARSE_CALLS) == [{"1"}, {"2", "3"}, {"0"}]
  {
    hide Up, Ancestors, OrderAsWritten, Groups;
    var g := COARSE_CALLS;
    CoarseOrder();
    CoarseUps();
    CoarseAncestors();
    assert Reversed(["0", "2", "3", "1"]) == ["1", "3", "2", "0"];
    assert [] + ["1"] == ["1"] && ["1"] + ["3"] == ["1", "3"] && ["1", "3"] + ["2"] == ["1", "3", "2"];
    assert ["1", "3", "2"] + ["0"] == ["1", "3", "2", "0"];
    NoGroups(g);
    GroupsSnoc(g, [], "1");
    GroupsSnoc(g, ["1"], "3");
    GroupsSnoc(g, ["1", "3"], "2");
    GroupsSnoc(g, ["1", "3", "2"], "0");
    assert {"1"} - {} == {"1"} && {"1", "2", "3"} - {"1"} == {"2", "3"} && {"0", "1", "2"} - {"1", "2", "3"} == {"0"};
  }

  lemma NoGroups(g: Graph)
    ensures Groups(g, []) == []
  {
  }

  lemma CoarseIsTight()
    ensures Tight(COARSE_CALLS, COARSE.schedule)
  {
    hide CallsBelow, Inhabited, Callees;
    var s := COARSE.schedule;
    CoarseCalleeSets();
    InhabitedBy(s, "0");
    InhabitedBy(s, "1");
    InhabitedBy(s, "2");
    CallsBelowBy(COARSE_CALLS, s, "1", "1", "2");
    CallsBelowBy(COARSE_CALLS, s, "2", "2", "0");
    CallsBelowBy(COARSE_CALLS, s, "3", "2", "0");
  }

  /** What the code makes of these calls is the schedule of `COARSE`. */
  lemma CoarseIsProduced(layers: Layers, s: Schedule)
    requires Produced(COARSE_CALLS, layers, s)
    ensures s == COARSE.schedule
  {
    hide Produced, Tight, GoodTask, GroupsAsWritten;
    CoarseIsValid();
    CoarseIsTight();
    CoarseGroups();
    forall f, group | f in COARSE_CALLS.nodes && IsGroup(GroupsAsWritten(COARSE_CALLS), group, f)
      ensures group == COARSE.schedule.groupOf[f]
    {
      ListedGroup(f, group);
    }
    ProducedIs(COARSE_CALLS, layers, s, COARSE.schedule);
  }

  lemma ListedGroup(f: Id, group: set<Id>)
    requires IsGroup([{"1"}, {"2", "3"}, {"0"}], group, f) && f in ALL
    ensures group == COARSE.schedule.groupOf[f]
  {
  }
}
