/** The static call graph: function ids, callee sets and reachability. */
module CallGraph {
  type Id = string

  /** `nodes` is the set of function ids, `deps` maps a caller to its callees.
      `deps` may lack callers and may mention ids outside `nodes`. */
  datatype Graph = Graph(nodes: set<Id>, deps: map<Id, set<Id>>)

  /** `dependencies.get(f, set())` */
  function Callees(g: Graph, f: Id): set<Id> {
    if f in g.deps then g.deps[f] else {}
  }

  predicate Edge(g: Graph, u: Id, v: Id) {
    u in g.nodes && v in g.nodes && v in Callees(g, u)
  }

  ghost predicate IsWalk(g: Graph, p: seq<Id>, u: Id, v: Id) {
    && |p| > 0 && p[0] == u && p[|p| - 1] == v
    && (forall i :: 0 <= i < |p| ==> p[i] in g.nodes)
    && (forall i :: 0 < i < |p| ==> Edge(g, p[i - 1], p[i]))
  }

  /** `u` calls `v` directly, transitively, or is `v`. */
  ghost predicate Reach(g: Graph, u: Id, v: Id) {
    exists p :: IsWalk(g, p, u, v)
  }

  ghost predicate Mutual(g: Graph, u: Id, v: Id) {
    Reach(g, u, v) && Reach(g, v, u)
  }

  lemma ReachSelf(g: Graph, u: Id)
    requires u in g.nodes
    ensures Reach(g, u, u)
  {
    assert IsWalk(g, [u], u, u);
  }

  lemma ReachTransitive(g: Graph, u: Id, v: Id, w: Id)
    requires Reach(g, u, v) && Reach(g, v, w)
    ensures Reach(g, u, w)
  {
    var p :| IsWalk(g, p, u, v);
    var q :| IsWalk(g, q, v, w);
    var r := p + q[1..];
    forall i | 0 < i < |r| ensures Edge(g, r[i - 1], r[i]) {
      if i >= |p| {
        assert r[i] == q[i - |p| + 1];
        assert r[i - 1] == q[i - |p|];
      }
    }
    assert IsWalk(g, r, u, w);
  }

  lemma ReachEdge(g: Graph, u: Id, v: Id)
    requires Edge(g, u, v)
    ensures Reach(g, u, v)
  {
    assert IsWalk(g, [u, v], u, v);
  }

  lemma ReachInNodes(g: Graph, u: Id, v: Id)
    requires Reach(g, u, v)
    ensures u in g.nodes && v in g.nodes
  {
    var p :| IsWalk(g, p, u, v);
  }

  /** Every caller of a member is a member. */
  ghost predicate ClosedUnderCallers(g: Graph, a: set<Id>) {
    forall u, v :: Edge(g, u, v) && v in a ==> u in a
  }

  lemma {:induction false} CallersOfMembers(g: Graph, a: set<Id>, u: Id, v: Id, p: seq<Id>)
    requires ClosedUnderCallers(g, a) && v in a
    requires IsWalk(g, p, u, v)
    ensures u in a
    decreases |p|
  {
    if |p| > 1 {
      var n := |p| - 1;
      assert Edge(g, p[n - 1], p[n]);
      CallersOfMembers(g, a, u, p[n - 1], p[..n]);
    }
  }

  /** A walk that starts in a set closed under calls stays in it. */
  lemma {:induction false} StaysInside(g: Graph, a: set<Id>, u: Id, v: Id, p: seq<Id>)
    requires forall x, y :: x in a && Edge(g, x, y) ==> y in a
    requires IsWalk(g, p, u, v) && u in a
    ensures v in a
    decreases |p|
  {
    if |p| > 1 {
      assert Edge(g, p[0], p[1]);
      StaysInside(g, a, p[1], v, p[1..]);
    }
  }

  ghost function Ancestors(g: Graph, s: Id): set<Id> {
    set u | u in g.nodes && Reach(g, u, s)
  }
}
