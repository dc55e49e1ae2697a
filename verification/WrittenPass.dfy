/** The first pass as written is not a depth-first post-order: the smallest graph on
    which the groups are not the strongly connected components. */
module WrittenPass {
  import opened Orders
  import opened CallGraph
  import opened Grouping
  import opened Kosaraju
  import opened FinishingOrder
  import opened Layering

  const TRIANGLE := Graph({"1", "2", "3"}, map["1" := {"2", "3"}, "2" := {"3"}])

  lemma SortedPair()
    ensures Sorted({"2", "3"}) == ["2", "3"]
    ensures Sorted({"3"}) == ["3"]
    ensures Sorted({"1", "2", "3"}) == ["1", "2", "3"]
    ensures Sorted({}) == []
  {
    SortedUnique(["2", "3"], {"2", "3"});
    SortedUnique(["3"], {"3"});
    SortedUnique(["1", "2", "3"], {"1", "2", "3"});
  }

  lemma TriangleCalls()
    ensures Callees(TRIANGLE, "1") == {"2", "3"} && Callees(TRIANGLE, "2") == {"3"} && Callees(TRIANGLE, "3") == {}
  {
  }

  lemma TriangleCallees()
    ensures SortedCallees(TRIANGLE, "1") == ["3", "2"]
    ensures SortedCallees(TRIANGLE, "2") == ["3"]
    ensures SortedCallees(TRIANGLE, "3") == []
  {
    hide Callees, StrLeq, Increasing;
    TriangleCalls();
    SortedPair();
    assert Reversed(["2", "3"]) == ["3", "2"] && Reversed(["3"]) == ["3"];
  }

  lemma ExpandStep(g: Graph, below: seq<Frame>, node: Id, visited: set<Id>, order: seq<Id>)
    ensures StepAsWritten(g, Pass(below + [Frame(node, false)], visited, order)) ==
            PushUnmarked(g, SortedCallees(g, node), Pass(below + [Frame(node, true)], visited, order))
    ensures RunAsWritten(g, Pass(below + [Frame(node, false)], visited, order)) ==
            RunAsWritten(g, PushUnmarked(g, SortedCallees(g, node), Pass(below + [Frame(node, true)], visited, order)))
  {
    assert (below + [Frame(node, false)])[..|below|] == below;
  }

  lemma FinishStep(g: Graph, below: seq<Frame>, node: Id, visited: set<Id>, order: seq<Id>)
    ensures RunAsWritten(g, Pass(below + [Frame(node, true)], visited, order)) ==
            RunAsWritten(g, Pass(below, visited, order + [node]))
  {
    assert (below + [Frame(node, true)])[..|below|] == below;
  }

  lemma PushFresh(g: Graph, c: Id, rest: seq<Id>, pass: Pass)
    requires c in g.nodes - pass.visited
    ensures PushUnmarked(g, [c] + rest, pass) ==
            PushUnmarked(g, rest, Pass(pass.stack + [Frame(c, false)], pass.visited + {c}, pass.order))
  {
    assert ([c] + rest)[1..] == rest;
  }

  lemma PushMarked(g: Graph, c: Id, rest: seq<Id>, pass: Pass)
    requires c in pass.visited
    ensures PushUnmarked(g, [c] + rest, pass) == PushUnmarked(g, rest, pass)
  {
    assert ([c] + rest)[1..] == rest;
  }

  lemma TwoPushes(g: Graph, a: Id, b: Id, pass: Pass)
    requires a in g.nodes && b in g.nodes && a != b && a !in pass.visited && b !in pass.visited
    ensures PushUnmarked(g, [a, b], pass) ==
            Pass(pass.stack + [Frame(a, false), Frame(b, false)], pass.visited + {a, b}, pass.order)
  {
    var half := Pass(pass.stack + [Frame(a, false)], pass.visited + {a}, pass.order);
    PushFresh(g, a, [b], pass);
    PushFresh(g, b, [], half);
    assert [a] + [b] == [a, b] && [b] + [] == [b];
    assert half.stack + [Frame(b, false)] == pass.stack + [Frame(a, false), Frame(b, false)];
    assert half.visited + {b} == pass.visited + {a, b};
  }

  /** From the start 1: both callees are marked when they are pushed. */
  lemma TriangleOpens()
    ensures RunAsWritten(TRIANGLE, Pass([Frame("1", false)], {"1"}, [])) ==
            RunAsWritten(TRIANGLE, Pass([Frame("1", true), Frame("3", false), Frame("2", false)], {"1", "2", "3"}, []))
  {
    hide RunAsWritten, StepAsWritten, PushUnmarked, SortedCallees;
    TriangleCallees();
    ExpandStep(TRIANGLE, [], "1", {"1"}, []);
    assert [] + [Frame("1", false)] == [Frame("1", false)] && [] + [Frame("1", true)] == [Frame("1", true)];
    TwoPushes(TRIANGLE, "3", "2", Pass([Frame("1", true)], {"1"}, []));
    assert [Frame("1", true)] + [Frame("3", false), Frame("2", false)] == [Frame("1", true), Frame("3", false), Frame("2", false)];
    assert {"1"} + {"3", "2"} == {"1", "2", "3"};
  }

  /** So 2 finds its callee 3 already marked and is finished before it. */
  lemma TriangleFinishesTwo(below: seq<Frame>)
    ensures RunAsWritten(TRIANGLE, Pass(below + [Frame("2", false)], {"1", "2", "3"}, [])) ==
            RunAsWritten(TRIANGLE, Pass(below, {"1", "2", "3"}, ["2"]))
  {
    hide RunAsWritten, StepAsWritten;
    TriangleCallees();
    var g, all := TRIANGLE, {"1", "2", "3"};
    ExpandStep(g, below, "2", all, []);
    PushMarked(g, "3", [], Pass(below + [Frame("2", true)], all, []));
    assert ["3"] + [] == ["3"];
    FinishStep(g, below, "2", all, []);
    assert [] + ["2"] == ["2"];
  }

  lemma TriangleFinishesThree(below: seq<Frame>)
    ensures RunAsWritten(TRIANGLE, Pass(below + [Frame("3", false)], {"1", "2", "3"}, ["2"])) ==
            RunAsWritten(TRIANGLE, Pass(below, {"1", "2", "3"}, ["2", "3"]))
  {
    hide RunAsWritten, StepAsWritten;
    TriangleCallees();
    ExpandStep(TRIANGLE, below, "3", {"1", "2", "3"}, ["2"]);
    FinishStep(TRIANGLE, below, "3", {"1", "2", "3"}, ["2"]);
    assert ["2"] + ["3"] == ["2", "3"];
  }

  lemma TriangleRun()
    ensures RunAsWritten(TRIANGLE, Pass([Frame("1", false)], {"1"}, [])) == Pass([], {"1", "2", "3"}, ["2", "3", "1"])
  {
    hide StepAsWritten;
    var g, all := TRIANGLE, {"1", "2", "3"};
    var a, b, c := Frame("1", true), Frame("3", false), Frame("2", false);
    TriangleOpens();
    TriangleFinishesTwo([a, b]);
    assert [a, b] + [c] == [a, b, c];
    TriangleFinishesThree([a]);
    assert [a] + [b] == [a, b];
    FinishStep(g, [], "1", all, ["2", "3"]);
    assert [] + [a] == [a] && ["2", "3"] + ["1"] == ["2", "3", "1"];
  }

  lemma PassSkips(g: Graph, start: Id, rest: seq<Id>, pass: Pass)
    requires start in pass.visited
    ensures PassFrom(g, [start] + rest, pass) == PassFrom(g, rest, pass)
  {
    assert ([start] + rest)[1..] == rest;
  }

  lemma PassStarts(g: Graph, start: Id, rest: seq<Id>, pass: Pass)
    requires start !in pass.visited
    ensures PassFrom(g, [start] + rest, pass) ==
            PassFrom(g, rest, RunAsWritten(g, Pass([Frame(start, false)], pass.visited + {start}, pass.order)))
  {
    assert ([start] + rest)[1..] == rest;
  }

  lemma NoStarts(g: Graph, pass: Pass)
    ensures PassFrom(g, [], pass) == pass
  {
  }

  lemma TriangleOrder()
    ensures OrderAsWritten(TRIANGLE) == ["2", "3", "1"]
  {
    hide RunAsWritten, PassFrom, Sorted;
    SortedPair();
    TriangleRun();
    var g := TRIANGLE;
    var end := Pass([], {"1", "2", "3"}, ["2", "3", "1"]);
    PassStarts(g, "1", ["2", "3"], Pass([], {}, []));
    assert {} + {"1"} == {"1"};
    assert ["1"] + ["2", "3"] == ["1", "2", "3"] && ["2"] + ["3"] == ["2", "3"] && ["3"] + [] == ["3"];
    PassSkips(g, "2", ["3"], end);
    PassSkips(g, "3", [], end);
    NoStarts(g, end);
  }

  lemma ThreeDoesNotReachTwo()
    ensures !Mutual(TRIANGLE, "2", "3")
  {
    if Reach(TRIANGLE, "3", "2") {
      var p :| IsWalk(TRIANGLE, p, "3", "2");
      StaysInside(TRIANGLE, {"3"}, "3", "2", p);
    }
  }

  /** The written first pass is not a depth-first post-order: on 1->2, 1->3, 2->3 it finishes
      2 before 3 although 2 calls 3, and the second pass then puts 2 and 3, which are
      not mutually recursive, into one group. */
  lemma WrittenPassIsNotExact()
    ensures !CallersFinishLater(TRIANGLE, OrderAsWritten(TRIANGLE))
    ensures !ExactGroups(TRIANGLE, GroupsAsWritten(TRIANGLE))
    ensures exists i :: InGroup(GroupsAsWritten(TRIANGLE), i, "2") && InGroup(GroupsAsWritten(TRIANGLE), i, "3")
  {
    hide Reach, OrderAsWritten, Groups;
    TriangleOrder();
    OrderAsWrittenIsPermutation(TRIANGLE);
    ExactIffCallersFinishLater(TRIANGLE, OrderAsWritten(TRIANGLE));
    TwoBeforeThree();
    assert Reversed(["2", "3", "1"]) == ["1", "3", "2"];
    TriangleShare();
  }

  lemma TwoBeforeThree()
    ensures !CallersFinishLater(TRIANGLE, ["2", "3", "1"])
  {
    var g, order := TRIANGLE, ["2", "3", "1"];
    ThreeDoesNotReachTwo();
    ReachSelf(g, "3");
    assert Edge(g, "2", "3");
    forall j | FinishesAfter(g, order, "2", "3", j) ensures Reach(g, "2", "1") {
      assert Mutual(g, order[1], "3");
    }
    if Reach(g, "2", "1") {
      var p :| IsWalk(g, p, "2", "1");
      StaysInside(g, {"2", "3"}, "2", "1", p);
    }
  }

  lemma NotAboveFirst()
    ensures "2" !in Up(TRIANGLE, ["1"]) && "3" !in Up(TRIANGLE, ["1"])
  {
    hide IsWalk;
    forall u | u in {"2", "3"} && Reach(TRIANGLE, u, "1") ensures false {
      var p :| IsWalk(TRIANGLE, p, u, "1");
      StaysInside(TRIANGLE, {"2", "3"}, u, "1", p);
    }
  }

  lemma TriangleShare()
    ensures exists i :: InGroup(Groups(TRIANGLE, ["1", "3", "2"]), i, "2") && InGroup(Groups(TRIANGLE, ["1", "3", "2"]), i, "3")
  {
    hide Reach, Groups;
    var g := TRIANGLE;
    var s0, s1, s2 := ["1"], ["1", "3"], ["1", "3", "2"];
    assert s1 == s0 + ["3"] && s2 == s1 + ["2"];
    GroupsSnoc(g, s0, "3");
    GroupsSnoc(g, s1, "2");
    ReachSelf(g, "3");
    ReachEdge(g, "2", "3");
    NotAboveFirst();
    assert Reach(g, "2", s1[1]);
    assert "2" in Up(g, s1);
    var n := |Groups(g, s0)|;
    assert InGroup(Groups(g, s2), n, "2") && InGroup(Groups(g, s2), n, "3");
  }
}
