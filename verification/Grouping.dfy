/** The second pass of the iterative Kosaraju grouping, for any finishing order. */
module Grouping {
  import opened Orders
  import opened CallGraph

  /** Everything that reaches some member of `s`: what the second pass has assigned
      once it has looked at the starts `s`. */
  ghost function Up(g: Graph, s: seq<Id>): set<Id> {
    set u | u in g.nodes && exists i :: 0 <= i < |s| && Reach(g, u, s[i])
  }

  /** What the second pass is for: walking the starts in order, a start that is not
      yet assigned opens a group of all its not yet assigned direct and indirect callers. */
  ghost function Groups(g: Graph, starts: seq<Id>): seq<set<Id>> {
    if starts == [] then [] else
      var done := starts[..|starts| - 1];
      var s := starts[|starts| - 1];
      if s in Up(g, done) then Groups(g, done)
      else Groups(g, done) + [Ancestors(g, s) - Up(g, done)]
  }

  ghost predicate IsPermutation(order: seq<Id>, nodes: set<Id>) {
    NoDuplicates(order) && Elements(order) == nodes
  }

  function ReverseEdges(g: Graph): map<Id, set<Id>> {
    map n | n in g.nodes :: set c | c in g.nodes && n in Callees(g, c)
  }

  /** The callers among `seen` only. */
  ghost function ReverseFrom(g: Graph, seen: set<Id>): map<Id, set<Id>> {
    map n | n in g.nodes :: set c | c in seen && c in g.nodes && n in Callees(g, c)
  }

  lemma ReverseFromStep(g: Graph, seen: set<Id>, caller: Id)
    requires caller in g.deps
    ensures forall n :: n in g.nodes ==>
              ReverseFrom(g, seen + {caller})[n] ==
              ReverseFrom(g, seen)[n] + if caller in g.nodes && n in g.deps[caller] then {caller} else {}
  {
  }

  lemma ReverseFromAll(g: Graph)
    ensures ReverseFrom(g, g.deps.Keys) == ReverseEdges(g)
  {
    forall n | n in g.nodes ensures ReverseFrom(g, g.deps.Keys)[n] == ReverseEdges(g)[n] {}
  }

  /** The inner of the two loops that fill `reverse_dependencies`. */
  method AddCaller(g: Graph, caller: Id, reverse: map<Id, set<Id>>) returns (reverse': map<Id, set<Id>>)
    requires caller in g.deps && reverse.Keys == g.nodes
    ensures reverse'.Keys == g.nodes
    ensures forall n :: n in g.nodes ==>
              reverse'[n] == reverse[n] + if caller in g.nodes && n in g.deps[caller] then {caller} else {}
  {
    reverse' := reverse;
    var children := g.deps[caller];
    while children != {}
      invariant children <= g.deps[caller] && reverse'.Keys == g.nodes
      invariant forall n :: n in g.nodes ==>
                  reverse'[n] == reverse[n] +
                    if caller in g.nodes && n in g.deps[caller] - children then {caller} else {}
      decreases children
    {
      var child :| child in children;
      if caller in g.nodes && child in g.nodes {
        reverse' := reverse'[child := reverse'[child] + {caller}];
      }
      children := children - {child};
    }
  }

  /** The nested loop that fills `reverse_dependencies`. */
  method ReverseDependencies(g: Graph) returns (reverse: map<Id, set<Id>>)
    ensures reverse == ReverseEdges(g)
  {
    reverse := map n | n in g.nodes :: {};
    var callers := g.deps.Keys;
    while callers != {}
      invariant callers <= g.deps.Keys
      invariant reverse.Keys == g.nodes
      invariant forall n :: n in g.nodes ==> reverse[n] == ReverseFrom(g, g.deps.Keys - callers)[n]
      decreases callers
    {
      var caller :| caller in callers;
      ReverseFromStep(g, g.deps.Keys - callers, caller);
      assert g.deps.Keys - (callers - {caller}) == (g.deps.Keys - callers) + {caller};
      reverse := AddCaller(g, caller, reverse);
      callers := callers - {caller};
    }
    ReverseFromAll(g);
    assert g.deps.Keys - callers == g.deps.Keys;
    assert reverse == ReverseEdges(g);
  }

  /** Pushes the callers that are not yet assigned, marking each as it is pushed. */
  method PushCallers(parents: seq<Id>, stack: seq<Id>, placed: set<Id>)
    returns (stack': seq<Id>, placed': set<Id>)
    ensures placed' == placed + Elements(parents)
    ensures Elements(stack') == Elements(stack) + (Elements(parents) - placed)
    ensures placed' == placed ==> stack' == stack
  {
    stack', placed' := stack, placed;
    var k := 0;
    while k < |parents|
      invariant 0 <= k <= |parents|
      invariant placed' == placed + Elements(parents[..k])
      invariant Elements(stack') == Elements(stack) + (Elements(parents[..k]) - placed)
      invariant placed' == placed ==> stack' == stack
    {
      var parent := parents[k];
      assert Elements(parents[..k + 1]) == Elements(parents[..k]) + {parent};
      if parent !in placed' {
        assert Elements(stack' + [parent]) == Elements(stack') + {parent};
        placed' := placed' + {parent};
        stack' := stack' + [parent];
      }
      k := k + 1;
    }
    assert parents[..k] == parents;
  }

  /** Between two rounds of the inner stack loop. */
  ghost predicate Collecting(g: Graph, start: Id, placed: set<Id>, placed': set<Id>,
                             members: set<Id>, pending: set<Id>) {
    && placed' == placed + members + pending
    && start in members + pending
    && (forall u :: u in members + pending ==> u in g.nodes && Reach(g, u, start) && u !in placed)
    && (forall u, v :: Edge(g, u, v) && v in members ==> u in placed')
  }

  lemma CollectingStep(g: Graph, start: Id, placed: set<Id>, placed': set<Id>, members: set<Id>,
                       pending: set<Id>, node: Id, callers: set<Id>)
    requires Collecting(g, start, placed, placed', members, pending + {node})
    requires node in g.nodes && callers == ReverseEdges(g)[node]
    ensures Collecting(g, start, placed, placed' + callers, members + {node}, pending + (callers - placed'))
  {
    forall c | c in callers ensures Reach(g, c, start) {
      ReachEdge(g, c, node);
      ReachTransitive(g, c, node, start);
    }
  }

  lemma CollectingDone(g: Graph, start: Id, placed: set<Id>, placed': set<Id>, members: set<Id>)
    requires ClosedUnderCallers(g, placed)
    requires Collecting(g, start, placed, placed', members, {})
    ensures members == Ancestors(g, start) - placed
    ensures placed' == placed + Ancestors(g, start)
  {
    assert ClosedUnderCallers(g, placed');
    forall u | u in Ancestors(g, start) ensures u in placed' {
      var p :| IsWalk(g, p, u, start);
      CallersOfMembers(g, placed', u, start, p);
    }
  }

  /** One round of the inner stack loop. */
  method CollectRound(g: Graph, reverse: map<Id, set<Id>>, ghost start: Id, ghost placed0: set<Id>,
                      members: seq<Id>, stack: seq<Id>, placed: set<Id>)
    returns (members': seq<Id>, stack': seq<Id>, placed': set<Id>)
    requires reverse == ReverseEdges(g) && stack != []
    requires Collecting(g, start, placed0, placed, Elements(members), Elements(stack))
    ensures Collecting(g, start, placed0, placed', Elements(members'), Elements(stack'))
    ensures placed <= placed' <= placed + g.nodes
    ensures placed == placed' ==> |stack'| < |stack|
  {
    var top := |stack| - 1;
    var node := stack[top];
    ElementsSnoc(stack[..top], node);
    assert stack == stack[..top] + [node];
    ElementsSnoc(members, node);
    CollectingStep(g, start, placed0, placed, Elements(members), Elements(stack[..top]), node, reverse[node]);
    members' := members + [node];
    ReversedElements(Sorted(reverse[node]));
    SortedElements(reverse[node]);
    stack', placed' := PushCallers(Reversed(Sorted(reverse[node])), stack[..top], placed);
  }

  /** One group: the inner stack loop, starting from an unassigned `start`. */
  method CollectGroup(g: Graph, reverse: map<Id, set<Id>>, start: Id, placed: set<Id>)
    returns (component: seq<Id>, placed': set<Id>)
    requires reverse == ReverseEdges(g)
    requires start in g.nodes && start !in placed
    requires placed <= g.nodes && ClosedUnderCallers(g, placed)
    ensures component == Sorted(Ancestors(g, start) - placed)
    ensures placed' == placed + Ancestors(g, start)
  {
    var members: seq<Id> := [];
    var stack := [start];
    placed' := placed + {start};
    ReachSelf(g, start);
    while stack != []
      invariant Collecting(g, start, placed, placed', Elements(members), Elements(stack))
      invariant placed' <= g.nodes
      decreases g.nodes - placed', |stack|
    {
      members, stack, placed' := CollectRound(g, reverse, start, placed, members, stack, placed');
    }
    CollectingDone(g, start, placed, placed', Elements(members));
    component := Sorted(Elements(members));
  }

  lemma UpClosed(g: Graph, s: seq<Id>)
    ensures ClosedUnderCallers(g, Up(g, s))
  {
    forall u, v | Edge(g, u, v) && v in Up(g, s) ensures u in Up(g, s) {
      var i :| 0 <= i < |s| && Reach(g, v, s[i]);
      ReachEdge(g, u, v);
      ReachTransitive(g, u, v, s[i]);
    }
  }

  lemma UpSnoc(g: Graph, s: seq<Id>, x: Id)
    ensures Up(g, s + [x]) == Up(g, s) + Ancestors(g, x)
  {
    var t := s + [x];
    forall u | u in g.nodes ensures u in Up(g, t) <==> u in Up(g, s) + Ancestors(g, x) {
      if u in Up(g, s) {
        var i :| 0 <= i < |s| && Reach(g, u, s[i]);
        assert t[i] == s[i];
      }
      if Reach(g, u, x) { assert t[|s|] == x; }
    }
  }

  /** An assigned start adds nothing. */
  lemma UpSkips(g: Graph, s: seq<Id>, x: Id)
    requires x in Up(g, s)
    ensures Up(g, s + [x]) == Up(g, s)
  {
    UpSnoc(g, s, x);
    UpClosed(g, s);
    forall u | u in Ancestors(g, x) ensures u in Up(g, s) {
      var p :| IsWalk(g, p, u, x);
      CallersOfMembers(g, Up(g, s), u, x, p);
    }
  }

  /** `sorted(component)` for every component. */
  function SortEach(groups: seq<set<Id>>): seq<seq<Id>> {
    seq(|groups|, i requires 0 <= i < |groups| => Sorted(groups[i]))
  }

  /** What the second pass has built after looking at `starts`. */
  ghost predicate Built(g: Graph, starts: seq<Id>, placed: set<Id>, components: seq<seq<Id>>) {
    placed == Up(g, starts) && components == SortEach(Groups(g, starts))
  }

  lemma SortEachSnoc(groups: seq<set<Id>>, group: set<Id>)
    ensures SortEach(groups + [group]) == SortEach(groups) + [Sorted(group)]
  {
  }

  lemma GroupsSnoc(g: Graph, starts: seq<Id>, start: Id)
    ensures Groups(g, starts + [start]) ==
            if start in Up(g, starts) then Groups(g, starts)
            else Groups(g, starts) + [Ancestors(g, start) - Up(g, starts)]
  {
    assert (starts + [start])[..|starts|] == starts;
  }

  lemma BuiltStep(g: Graph, starts: seq<Id>, start: Id, placed: set<Id>, components: seq<seq<Id>>)
    requires Built(g, starts, placed, components)
    ensures start in placed ==> Built(g, starts + [start], placed, components)
    ensures start !in placed ==>
              Built(g, starts + [start], placed + Ancestors(g, start),
                    components + [Sorted(Ancestors(g, start) - placed)])
    ensures ClosedUnderCallers(g, placed) && placed <= g.nodes
  {
    UpClosed(g, starts);
    GroupsSnoc(g, starts, start);
    SortEachSnoc(Groups(g, starts), Ancestors(g, start) - placed);
    UpSnoc(g, starts, start);
    if start in placed {
      UpSkips(g, starts, start);
    }
  }

  /** The second pass over a finishing order. */
  method SecondPass(g: Graph, order: seq<Id>) returns (components: seq<seq<Id>>)
    requires Elements(order) <= g.nodes
    ensures components == SortEach(Groups(g, Reversed(order)))
  {
    var reverse := ReverseDependencies(g);
    components := [];
    var placed: set<Id> := {};
    var starts := Reversed(order);
    ReversedElements(order);
    for k := 0 to |starts|
      invariant Built(g, starts[..k], placed, components)
    {
      var start := starts[k];
      assert starts[..k + 1] == starts[..k] + [start];
      BuiltStep(g, starts[..k], start, placed, components);
      if start !in placed {
        assert start in Elements(starts);
        var component: seq<Id>;
        component, placed := CollectGroup(g, reverse, start, placed);
        components := components + [component];
      }
    }
    assert starts[..|starts|] == starts;
  }
}
