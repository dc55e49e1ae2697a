/** The first pass of the grouping: a stack loop that lists every function once.
    As written it marks a callee when it is pushed; `MarkOnExpand` marks when it is popped. */
module FinishingOrder {
  import opened Orders
  import opened CallGraph
  import opened Grouping

  datatype Frame = Frame(node: Id, expanded: bool)

  datatype Pass = Pass(stack: seq<Frame>, visited: set<Id>, order: seq<Id>)

  // ------------------------------------------------ the pass as written

  /** The inner loop over the sorted callees: mark and push what is not marked yet. */
  function PushUnmarked(g: Graph, children: seq<Id>, pass: Pass): Pass {
    if children == [] then pass
    else if children[0] in g.nodes && children[0] !in pass.visited then
      PushUnmarked(g, children[1..],
                   pass.(visited := pass.visited + {children[0]},
                         stack := pass.stack + [Frame(children[0], false)]))
    else PushUnmarked(g, children[1..], pass)
  }

  function SortedCallees(g: Graph, node: Id): seq<Id> {
    Reversed(Sorted(Callees(g, node)))
  }

  function StepAsWritten(g: Graph, pass: Pass): Pass
    requires pass.stack != []
  {
    var top := |pass.stack| - 1;
    var Frame(node, expanded) := pass.stack[top];
    if expanded then pass.(stack := pass.stack[..top], order := pass.order + [node])
    else PushUnmarked(g, SortedCallees(g, node), pass.(stack := pass.stack[..top] + [Frame(node, true)]))
  }

  /** Work left on the stack: a fresh frame is handled twice, an expanded one once. */
  function Weight(stack: seq<Frame>): nat {
    if stack == [] then 0
    else Weight(stack[..|stack| - 1]) + if stack[|stack| - 1].expanded then 1 else 2
  }

  lemma WeightSnoc(stack: seq<Frame>, f: Frame)
    ensures Weight(stack + [f]) == Weight(stack) + if f.expanded then 1 else 2
  {
    assert (stack + [f])[..|stack|] == stack;
  }

  lemma {:induction false} PushUnmarkedProgress(g: Graph, children: seq<Id>, pass: Pass)
    ensures var next := PushUnmarked(g, children, pass);
            && pass.visited <= next.visited
            && (next == pass || g.nodes - next.visited < g.nodes - pass.visited)
  {
    if children != [] {
      var c := children[0];
      if c in g.nodes && c !in pass.visited {
        PushUnmarkedProgress(g, children[1..],
                             pass.(visited := pass.visited + {c}, stack := pass.stack + [Frame(c, false)]));
        assert c in g.nodes - pass.visited;
      } else {
        PushUnmarkedProgress(g, children[1..], pass);
      }
    }
  }

  lemma StepProgress(g: Graph, pass: Pass)
    requires pass.stack != []
    ensures var next := StepAsWritten(g, pass);
            || g.nodes - next.visited < g.nodes - pass.visited
            || (next.visited == pass.visited && Weight(next.stack) < Weight(pass.stack))
  {
    var top := |pass.stack| - 1;
    var Frame(node, expanded) := pass.stack[top];
    WeightSnoc(pass.stack[..top], pass.stack[top]);
    assert pass.stack == pass.stack[..top] + [pass.stack[top]];
    if !expanded {
      WeightSnoc(pass.stack[..top], Frame(node, true));
      PushUnmarkedProgress(g, SortedCallees(g, node), pass.(stack := pass.stack[..top] + [Frame(node, true)]));
    }
  }

  /** The `while stack` loop. */
  function RunAsWritten(g: Graph, pass: Pass): Pass
    decreases g.nodes - pass.visited, Weight(pass.stack)
  {
    if pass.stack == [] then pass
    else
      StepProgress(g, pass);
      RunAsWritten(g, StepAsWritten(g, pass))
  }

  /** The `for start in sorted(nodes)` loop. */
  function PassFrom(g: Graph, starts: seq<Id>, pass: Pass): Pass {
    if starts == [] then pass
    else if starts[0] in pass.visited then PassFrom(g, starts[1..], pass)
    else
      PassFrom(g, starts[1..],
               RunAsWritten(g, pass.(visited := pass.visited + {starts[0]}, stack := [Frame(starts[0], false)])))
  }

  function OrderAsWritten(g: Graph): seq<Id> {
    PassFrom(g, Sorted(g.nodes), Pass([], {}, [])).order
  }

  /** The first pass as a program. */
  method FinishingOrderAsWritten(g: Graph) returns (order: seq<Id>)
    ensures order == OrderAsWritten(g)
  {
    var pass := Pass([], {}, []);
    var starts := Sorted(g.nodes);
    for k := 0 to |starts|
      invariant PassFrom(g, starts[k..], pass).order == OrderAsWritten(g)
    {
      var start := starts[k];
      assert starts[k..][1..] == starts[k + 1..];
      if start !in pass.visited {
        pass := pass.(visited := pass.visited + {start}, stack := [Frame(start, false)]);
        pass := DrainStack(g, pass);
      }
    }
    order := pass.order;
  }

  /** The inner loop over the sorted callees. */
  method PushChildren(g: Graph, children: seq<Id>, pass0: Pass) returns (pass: Pass)
    ensures pass == PushUnmarked(g, children, pass0)
  {
    pass := pass0;
    for k := 0 to |children|
      invariant PushUnmarked(g, children[k..], pass) == PushUnmarked(g, children, pass0)
    {
      assert children[k..][1..] == children[k + 1..];
      var child := children[k];
      if child in g.nodes && child !in pass.visited {
        pass := pass.(visited := pass.visited + {child}, stack := pass.stack + [Frame(child, false)]);
      }
    }
  }

  method DrainStack(g: Graph, pass0: Pass) returns (pass: Pass)
    ensures pass == RunAsWritten(g, pass0)
  {
    hide PushUnmarked, SortedCallees;
    pass := pass0;
    while pass.stack != []
      invariant RunAsWritten(g, pass) == RunAsWritten(g, pass0)
      decreases g.nodes - pass.visited, Weight(pass.stack)
    {
      StepProgress(g, pass);
      var top := |pass.stack| - 1;
      var Frame(node, expanded) := pass.stack[top];
      if expanded {
        pass := pass.(stack := pass.stack[..top], order := pass.order + [node]);
      } else {
        pass := pass.(stack := pass.stack[..top] + [Frame(node, true)]);
        pass := PushChildren(g, SortedCallees(g, node), pass);
      }
    }
  }

  // ------------------------------------------------ it lists every function once

  function Names(stack: seq<Frame>): seq<Id> {
    seq(|stack|, i requires 0 <= i < |stack| => stack[i].node)
  }

  /** Listed and pending functions are exactly the marked ones, each once. */
  ghost predicate Once(g: Graph, pass: Pass) {
    && NoDuplicates(pass.order + Names(pass.stack))
    && pass.visited == Elements(pass.order + Names(pass.stack))
    && pass.visited <= g.nodes
  }

  lemma OncePush(g: Graph, pass: Pass, c: Id)
    requires Once(g, pass) && c in g.nodes - pass.visited
    ensures Once(g, pass.(visited := pass.visited + {c}, stack := pass.stack + [Frame(c, false)]))
  {
    var all := pass.order + Names(pass.stack);
    assert pass.order + Names(pass.stack + [Frame(c, false)]) == all + [c];
    ElementsSnoc(all, c);
    forall i | 0 <= i < |all| ensures all[i] != c { assert all[i] in Elements(all); }
  }

  lemma {:induction false} OncePushUnmarked(g: Graph, children: seq<Id>, pass: Pass)
    requires Once(g, pass)
    ensures Once(g, PushUnmarked(g, children, pass))
  {
    if children != [] {
      var c := children[0];
      if c in g.nodes && c !in pass.visited {
        OncePush(g, pass, c);
        OncePushUnmarked(g, children[1..],
                         pass.(visited := pass.visited + {c}, stack := pass.stack + [Frame(c, false)]));
      } else {
        OncePushUnmarked(g, children[1..], pass);
      }
    }
  }

  lemma OnceStep(g: Graph, pass: Pass)
    requires pass.stack != [] && Once(g, pass)
    ensures Once(g, StepAsWritten(g, pass))
  {
    var top := |pass.stack| - 1;
    var Frame(node, expanded) := pass.stack[top];
    if expanded {
      assert Names(pass.stack) == Names(pass.stack[..top]) + [node];
      OnceMoved(pass.order, Names(pass.stack[..top]), node);
    } else {
      var grown := pass.(stack := pass.stack[..top] + [Frame(node, true)]);
      assert Names(grown.stack) == Names(pass.stack);
      OncePushUnmarked(g, SortedCallees(g, node), grown);
    }
  }

  lemma OnceMoved(a: seq<Id>, b: seq<Id>, x: Id)
    requires NoDuplicates(a + (b + [x]))
    ensures NoDuplicates(a + [x] + b)
    ensures Elements(a + [x] + b) == Elements(a + (b + [x]))
  {
    var s, t := a + (b + [x]), a + [x] + b;
    forall i, j | 0 <= i < j < |t| ensures t[i] != t[j] {
      var i' := if i < |a| then i else if i == |a| then |s| - 1 else i - 1;
      var j' := if j < |a| then j else if j == |a| then |s| - 1 else j - 1;
      assert t[i] == s[i'] && t[j] == s[j'] && i' != j';
    }
    assert multiset(s) == multiset(t);
    forall y ensures y in t <==> y in s { assert y in t <==> y in multiset(t); assert y in s <==> y in multiset(s); }
  }

  lemma {:induction false} OnceRun(g: Graph, pass: Pass)
    requires Once(g, pass)
    ensures Once(g, RunAsWritten(g, pass)) && RunAsWritten(g, pass).stack == []
    ensures pass.visited <= RunAsWritten(g, pass).visited
    decreases g.nodes - pass.visited, Weight(pass.stack)
  {
    if pass.stack != [] {
      StepProgress(g, pass);
      OnceStep(g, pass);
      StepKeepsMarks(g, pass);
      OnceRun(g, StepAsWritten(g, pass));
    }
  }

  lemma StepKeepsMarks(g: Graph, pass: Pass)
    requires pass.stack != []
    ensures pass.visited <= StepAsWritten(g, pass).visited
  {
    var top := |pass.stack| - 1;
    PushUnmarkedProgress(g, SortedCallees(g, pass.stack[top].node),
                         pass.(stack := pass.stack[..top] + [Frame(pass.stack[top].node, true)]));
  }

  lemma {:induction false} OncePass(g: Graph, starts: seq<Id>, pass: Pass)
    requires Once(g, pass) && pass.stack == [] && Elements(starts) <= g.nodes
    ensures var end := PassFrom(g, starts, pass);
            Once(g, end) && end.stack == [] && pass.visited + Elements(starts) <= end.visited
  {
    if starts != [] {
      assert Elements(starts) == {starts[0]} + Elements(starts[1..]);
      if starts[0] in pass.visited {
        OncePass(g, starts[1..], pass);
      } else {
        assert starts[0] in Elements(starts);
        var grown := pass.(visited := pass.visited + {starts[0]}, stack := [Frame(starts[0], false)]);
        OncePush(g, pass, starts[0]);
        assert pass.stack + [Frame(starts[0], false)] == [Frame(starts[0], false)];
        OnceRun(g, grown);
        OncePass(g, starts[1..], RunAsWritten(g, grown));
      }
    }
  }

  lemma NothingOnce(g: Graph)
    ensures Once(g, Pass([], {}, []))
  {
    assert [] + Names([]) == [];
  }

  lemma OnceAllListed(g: Graph, pass: Pass)
    requires Once(g, pass) && pass.stack == [] && g.nodes <= pass.visited
    ensures IsPermutation(pass.order, g.nodes)
  {
    assert pass.order + Names(pass.stack) == pass.order;
  }

  /** The pass as written terminates and lists every function exactly once. */
  lemma OrderAsWrittenIsPermutation(g: Graph)
    ensures IsPermutation(OrderAsWritten(g), g.nodes)
  {
    hide Once, PassFrom;
    SortedElements(g.nodes);
    NothingOnce(g);
    OncePass(g, Sorted(g.nodes), Pass([], {}, []));
    OnceAllListed(g, PassFrom(g, Sorted(g.nodes), Pass([], {}, [])));
  }
}
