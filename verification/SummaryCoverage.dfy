/** Which of the functions that a function reaches its cache key covers. */
module SummaryCoverage {
  import opened CallGraph
  import opened SummaryPlan
  import opened SummaryCache

  ghost predicate CoversAllReached(p: Plan, f: Id)
    requires ValidPlan(p) && f in p.g.nodes
  {
    forall x :: Reach(p.g, f, x) ==> Covers(p, f, x)
  }

  /** The callees outside its group of every covered function that `f` reaches are covered. */
  ghost predicate OutsideCalleesCovered(p: Plan, f: Id)
    requires ValidPlan(p) && f in p.g.nodes
  {
    forall g, c :: Reach(p.g, f, g) && Covers(p, f, g) && c in OutsideCalleesOf(p, g) ==> Covers(p, f, c)
  }

  lemma {:induction false} CoversWholeGroup(p: Plan, f: Id, g: Id, h: Id)
    requires ValidPlan(p) && f in p.g.nodes && Covers(p, f, g)
    requires g in p.schedule.groupOf && h in p.schedule.groupOf[g]
    ensures Covers(p, f, h)
    decreases Layer(p, f)
  {
    hide ValidPlan;
    InGroupItself(p, f);
    OutsideIsEarlier(p, f);
    if g in p.schedule.groupOf[f] {
      OneGroup(p, f, g);
    } else {
      var c :| c in OutsideCallees(p, f) && Covers(p, c, g);
      CoversWholeGroup(p, c, g, h);
    }
  }

  lemma OneGroup(p: Plan, f: Id, g: Id)
    requires ValidPlan(p) && f in p.g.nodes && f in p.schedule.groupOf && g in p.schedule.groupOf[f]
    ensures g in p.g.nodes && g in p.schedule.groupOf && p.schedule.groupOf[g] == p.schedule.groupOf[f]
  {
    assert GoodTask(p.g, p.schedule, f);
  }

  lemma CoversItself(p: Plan, f: Id)
    requires ValidPlan(p) && f in p.g.nodes
    ensures Covers(p, f, f)
  {
    InGroupItself(p, f);
  }

  lemma {:induction false} WalkCovered(p: Plan, f: Id, x: Id, walk: seq<Id>)
    requires ValidPlan(p) && f in p.g.nodes && OutsideCalleesCovered(p, f) && IsWalk(p.g, walk, f, x)
    ensures Covers(p, f, x)
    decreases |walk|
  {
    hide ValidPlan, Covers;
    if |walk| == 1 {
      CoversItself(p, f);
    } else {
      var g := walk[|walk| - 2];
      assert Edge(p.g, g, walk[|walk| - 1]);
      assert IsWalk(p.g, walk[..|walk| - 1], f, g);
      WalkCovered(p, f, g, walk[..|walk| - 1]);
      InGroupItself(p, g);
      if x in p.schedule.groupOf[g] {
        CoversWholeGroup(p, f, g, x);
      } else {
        assert x in OutsideCalleesOf(p, g);
      }
    }
  }

  /** A fingerprint covers everything that the function reaches exactly if it covers the callees outside the group of
      every function that it covers and reaches. */
  lemma CoversAllReachedIff(p: Plan, f: Id)
    requires ValidPlan(p) && f in p.g.nodes
    ensures CoversAllReached(p, f) <==> OutsideCalleesCovered(p, f)
  {
    hide ValidPlan, Covers, IsWalk, OutsideCalleesOf;
    if CoversAllReached(p, f) {
      forall g, c | Reach(p.g, f, g) && Covers(p, f, g) && c in OutsideCalleesOf(p, g) ensures Covers(p, f, c) {
        OutsideReached(p, f, g, c);
      }
    } else {
      var x :| Reach(p.g, f, x) && !Covers(p, f, x);
      if OutsideCalleesCovered(p, f) {
        var walk :| IsWalk(p.g, walk, f, x);
        WalkCovered(p, f, x, walk);
      }
    }
  }

  // ------------------------------------------------ groups of mutually recursive functions

  ghost predicate GroupsAreRecursive(p: Plan)
    requires ValidPlan(p)
  {
    forall f, g :: f in p.schedule.groupOf && g in p.schedule.groupOf[f] ==> Reach(p.g, f, g)
  }

  lemma {:induction false} OnlyReachedIsCovered(p: Plan, f: Id, x: Id)
    requires ValidPlan(p) && GroupsAreRecursive(p) && f in p.g.nodes && Covers(p, f, x)
    ensures Reach(p.g, f, x)
    decreases Layer(p, f)
  {
    hide ValidPlan, Reach;
    InGroupItself(p, f);
    OutsideIsEarlier(p, f);
    if x !in p.schedule.groupOf[f] {
      var c :| c in OutsideCallees(p, f) && Covers(p, c, x);
      OnlyReachedIsCovered(p, c, x);
      ReachEdge(p.g, f, c);
      ReachTransitive(p.g, f, c, x);
    }
  }

  /** The same without reachability. */
  ghost predicate CoveredCalleesCovered(p: Plan, f: Id)
    requires ValidPlan(p) && f in p.g.nodes
  {
    forall g, c :: Covers(p, f, g) && c in OutsideCalleesOf(p, g) ==> Covers(p, f, c)
  }

  /** With groups of mutually recursive functions a fingerprint covers exactly what the function reaches if and only
      if it covers the callees outside the group of every function that it covers. */
  lemma CoversReachIff(p: Plan, f: Id)
    requires ValidPlan(p) && GroupsAreRecursive(p) && f in p.g.nodes
    ensures (forall x :: Covers(p, f, x) <==> Reach(p.g, f, x)) <==> CoveredCalleesCovered(p, f)
    ensures CoversAllReached(p, f) <==> CoveredCalleesCovered(p, f)
  {
    hide ValidPlan, Covers, Reach, OutsideCalleesOf, GroupsAreRecursive;
    forall x | Covers(p, f, x) ensures Reach(p.g, f, x) {
      OnlyReachedIsCovered(p, f, x);
    }
    CoversAllReachedIff(p, f);
    assert OutsideCalleesCovered(p, f) <==> CoveredCalleesCovered(p, f);
  }

  lemma OwnCallsOnly(p: Plan, f: Id, x: Id)
    requires ValidPlan(p) && f in p.g.nodes && f in p.schedule.groupOf && Callees(p.g, f) <= p.schedule.groupOf[f]
    ensures Covers(p, f, x) <==> x in p.schedule.groupOf[f]
  {
    hide ValidPlan;
    assert forall c :: c !in OutsideCallees(p, f);
  }

  // ------------------------------------------------ plans that cover too little and too much

  function PlanOf(deps: map<Id, set<Id>>, schedule: Schedule): Plan {
    var g := Graph(deps.Keys, deps);
    Plan(map f | f in deps :: Function(f, false, false, "", f), g, map f | f in deps :: {}, schedule, "", "", 1,
         text => text, (payload: Payload) => payload.source)
  }

  /** `f` and `g` call each other, and `g` calls `x`. */
  const RECURSIVE: Plan :=
    PlanOf(map["f" := {"g"}, "g" := {"f", "x"}, "x" := {}],
           Schedule(map["f" := 1, "g" := 1, "x" := 0], map["f" := {"f", "g"}, "g" := {"f", "g"}, "x" := {"x"}], 2))

  /** The key of `f` does not cover `x`, which `f` reaches through its peer. */
  lemma ReachedNotCovered()
    ensures ValidPlan(RECURSIVE) && GroupsAreRecursive(RECURSIVE)
    ensures "f" in RECURSIVE.g.nodes && Reach(RECURSIVE.g, "f", "x") && !Covers(RECURSIVE, "f", "x")
    ensures "x" in OutsideCalleesOf(RECURSIVE, "g")
  {
    hide ValidPlan, Covers, Reach, GroupsAreRecursive;
    RecursiveIsValid();
    RecursiveReaches();
    OwnCallsOnly(RECURSIVE, "f", "x");
  }

  lemma RecursiveIsValid()
    ensures ValidPlan(RECURSIVE)
  {
    forall f | f in RECURSIVE.g.nodes ensures GoodTask(RECURSIVE.g, RECURSIVE.schedule, f) {
    }
  }

  lemma RecursiveReaches()
    requires ValidPlan(RECURSIVE)
    ensures GroupsAreRecursive(RECURSIVE) && Reach(RECURSIVE.g, "f", "x")
  {
    hide Reach;
    var g := RECURSIVE.g;
    ReachSelf(g, "f");
    ReachSelf(g, "g");
    ReachSelf(g, "x");
    ReachEdge(g, "f", "g");
    ReachEdge(g, "g", "f");
    ReachEdge(g, "g", "x");
    ReachTransitive(g, "f", "g", "x");
  }

  /** `1` calls `2` and `3`, `2` calls `0` and `3`; the pass as written puts `2` and `3` into one group. */
  const COARSE: Plan :=
    PlanOf(map["0" := {}, "1" := {"2", "3"}, "2" := {"0", "3"}, "3" := {}],
           Schedule(map["1" := 2, "2" := 1, "3" := 1, "0" := 0],
                    map["1" := {"1"}, "2" := {"2", "3"}, "3" := {"2", "3"}, "0" := {"0"}], 3))

  /** In a group that is too coarse, `3` covers `2`, which it does not reach; so it covers all that it reaches, but
      not the callee of `2`. */
  lemma CoveredNotReached()
    ensures ValidPlan(COARSE) && "3" in COARSE.g.nodes
    ensures Covers(COARSE, "3", "2") && !Reach(COARSE.g, "3", "2")
    ensures CoversAllReached(COARSE, "3")
    ensures "0" in OutsideCalleesOf(COARSE, "2") && !Covers(COARSE, "3", "0")
  {
    hide ValidPlan, Covers, Reach;
    CoarseIsValid();
    LeafReaches();
    CoversItself(COARSE, "3");
    OwnCallsOnly(COARSE, "3", "2");
    OwnCallsOnly(COARSE, "3", "0");
  }

  lemma CoarseIsValid()
    ensures ValidPlan(COARSE)
  {
    forall f | f in COARSE.g.nodes ensures GoodTask(COARSE.g, COARSE.schedule, f) {
    }
  }

  lemma LeafReaches()
    ensures forall x :: Reach(COARSE.g, "3", x) ==> x == "3"
  {
    hide IsWalk;
    assert forall y :: !Edge(COARSE.g, "3", y);
    forall x | Reach(COARSE.g, "3", x) ensures x == "3" {
      var walk :| IsWalk(COARSE.g, walk, "3", x);
      StaysInside(COARSE.g, {"3"}, "3", x, walk);
    }
  }
}
