/** What the path search finds in any call tree, macro and callback nodes included. */
module TreeSearch {
  import opened CallTree

  /** `r` lists the children taken from `tree` on, by their position. */
  predicate IsRoute(tree: Tree, r: seq<nat>) {
    r == [] || (r[0] < |tree.children| && IsRoute(tree.children[r[0]], r[1..]))
  }

  /** The nodes along a route, `tree` first. */
  function NodesOn(tree: Tree, r: seq<nat>): (nodes: seq<Tree>)
    requires IsRoute(tree, r)
    ensures |nodes| == |r| + 1 && nodes[0] == tree
  {
    [tree] + if r == [] then [] else NodesOn(tree.children[r[0]], r[1..])
  }

  /** The route ends at its first node named `required`. */
  ghost predicate Hits(tree: Tree, r: seq<nat>, required: string) {
    && IsRoute(tree, r)
    && NodesOn(tree, r)[|r|].func.name == required
    && forall i :: 0 <= i < |r| ==> NodesOn(tree, r)[i].func.name != required
  }

  /** `paths` are the nodes along `routes`, one by one, each behind `prefix`. */
  ghost predicate Show(tree: Tree, routes: seq<seq<nat>>, prefix: seq<Tree>, paths: seq<seq<Tree>>) {
    |paths| == |routes| && forall i :: 0 <= i < |routes| ==> IsRoute(tree, routes[i]) && paths[i] == prefix + NodesOn(tree, routes[i])
  }

  /** Depth-first order: at the first difference the earlier route takes the earlier child. */
  predicate Before(r: seq<nat>, q: seq<nat>) {
    r != [] && q != [] && (r[0] < q[0] || (r[0] == q[0] && Before(r[1..], q[1..])))
  }

  ghost predicate InDepthFirstOrder(routes: seq<seq<nat>>) {
    forall i, j :: 0 <= i < j < |routes| ==> Before(routes[i], routes[j])
  }

  function Prepend(k: nat, routes: seq<seq<nat>>): (r: seq<seq<nat>>)
    ensures |r| == |routes| && forall i :: 0 <= i < |routes| ==> r[i] == [k] + routes[i]
  {
    seq(|routes|, i requires 0 <= i < |routes| => [k] + routes[i])
  }

  function Routes(tree: Tree, required: string): seq<seq<nat>>
    decreases tree, 1, 0
  {
    if tree.func.name == required then [[]] else RoutesFrom(tree, 0, required)
  }

  function RoutesFrom(tree: Tree, k: nat, required: string): seq<seq<nat>>
    decreases tree, 0, |tree.children| - k
  {
    if k >= |tree.children| then []
    else Prepend(k, Routes(tree.children[k], required)) + RoutesFrom(tree, k + 1, required)
  }

  lemma HitStep(tree: Tree, r: seq<nat>, required: string)
    requires tree.func.name != required
    ensures Hits(tree, r, required) <==> r != [] && r[0] < |tree.children| && Hits(tree.children[r[0]], r[1..], required)
  {
    if r != [] && r[0] < |tree.children| && IsRoute(tree.children[r[0]], r[1..]) {
      var later := NodesOn(tree.children[r[0]], r[1..]);
      assert NodesOn(tree, r) == [tree] + later;
      assert forall i :: 0 <= i < |r| ==> NodesOn(tree, r)[i + 1] == later[i];
      if Hits(tree, r, required) {
        forall i | 0 <= i < |r| - 1 ensures later[i].func.name != required {
          assert NodesOn(tree, r)[i + 1].func.name != required;
        }
      }
      if Hits(tree.children[r[0]], r[1..], required) {
        forall i | 0 <= i < |r| ensures NodesOn(tree, r)[i].func.name != required {
          if i > 0 { assert later[i - 1].func.name != required; }
        }
      }
    }
  }

  lemma HitHere(tree: Tree, r: seq<nat>, required: string)
    requires tree.func.name == required
    ensures Hits(tree, r, required) <==> r == []
  {
    if r != [] && IsRoute(tree, r) {
      assert NodesOn(tree, r)[0] == tree;
    }
  }

  lemma InPrepend(k: nat, routes: seq<seq<nat>>, r: seq<nat>)
    ensures r in Prepend(k, routes) <==> r != [] && r[0] == k && r[1..] in routes
  {
    if r != [] && r[0] == k && r[1..] in routes {
      var i :| 0 <= i < |routes| && routes[i] == r[1..];
      assert Prepend(k, routes)[i] == [k] + r[1..] == r;
    }
    if r in Prepend(k, routes) {
      var i :| 0 <= i < |routes| && Prepend(k, routes)[i] == r;
      assert r[1..] == routes[i];
    }
  }

  lemma {:induction false} RoutesHit(tree: Tree, r: seq<nat>, required: string)
    ensures r in Routes(tree, required) <==> Hits(tree, r, required)
    decreases tree, 1, 0
  {
    hide Hits;
    if tree.func.name == required {
      HitHere(tree, r, required);
    } else {
      HitStep(tree, r, required);
      RoutesFromHit(tree, 0, r, required);
    }
  }

  lemma {:induction false} RoutesFromHit(tree: Tree, k: nat, r: seq<nat>, required: string)
    ensures r in RoutesFrom(tree, k, required) <==>
            r != [] && k <= r[0] < |tree.children| && Hits(tree.children[r[0]], r[1..], required)
    decreases tree, 0, |tree.children| - k
  {
    hide Hits;
    if k < |tree.children| {
      RoutesFromHit(tree, k + 1, r, required);
      InPrepend(k, Routes(tree.children[k], required), r);
      if r != [] && r[0] == k {
        RoutesHit(tree.children[k], r[1..], required);
      }
    }
  }

  lemma {:induction false} RoutesOrdered(tree: Tree, required: string)
    ensures InDepthFirstOrder(Routes(tree, required))
    decreases tree, 1, 0
  {
    if tree.func.name != required {
      RoutesFromOrdered(tree, 0, required);
    }
  }

  lemma {:induction false} RoutesFromOrdered(tree: Tree, k: nat, required: string)
    ensures InDepthFirstOrder(RoutesFrom(tree, k, required))
    ensures forall r :: r in RoutesFrom(tree, k, required) ==> r != [] && r[0] >= k
    decreases tree, 0, |tree.children| - k
  {
    if k < |tree.children| {
      RoutesOrdered(tree.children[k], required);
      RoutesFromOrdered(tree, k + 1, required);
      OrderedConcat(k, Routes(tree.children[k], required), RoutesFrom(tree, k + 1, required));
    }
  }

  lemma OrderedConcat(k: nat, below: seq<seq<nat>>, rest: seq<seq<nat>>)
    requires InDepthFirstOrder(below) && InDepthFirstOrder(rest)
    requires forall r :: r in rest ==> r != [] && r[0] > k
    ensures InDepthFirstOrder(Prepend(k, below) + rest)
    ensures forall r :: r in Prepend(k, below) + rest ==> r != [] && r[0] >= k
  {
    var first := Prepend(k, below);
    var all := first + rest;
    forall i, j | 0 <= i < j < |all| ensures Before(all[i], all[j]) {
      if j < |first| {
        assert first[i][1..] == below[i] && first[j][1..] == below[j];
      } else {
        assert all[j] == rest[j - |first|] && rest[j - |first|] in rest;
      }
    }
  }

  // ------------------------------------------------ the paths

  lemma {:induction false} PathsShow(tree: Tree, required: string, prefix: seq<Tree>)
    ensures Show(tree, Routes(tree, required), prefix, PathsFrom(tree, required, prefix))
    decreases tree, 1, 0
  {
    if tree.func.name == required {
      assert NodesOn(tree, []) == [tree];
    } else {
      ChildrenShow(tree, 0, required, prefix);
      assert tree.children[0..] == tree.children;
    }
  }

  lemma {:induction false} ChildrenShow(tree: Tree, k: nat, required: string, prefix: seq<Tree>)
    requires k <= |tree.children|
    ensures Show(tree, RoutesFrom(tree, k, required), prefix, PathsOfChildren(tree.children[k..], required, prefix + [tree]))
    decreases tree, 0, |tree.children| - k
  {
    if k < |tree.children| {
      assert tree.children[k..][1..] == tree.children[k + 1..];
      PathsShow(tree.children[k], required, prefix + [tree]);
      ChildrenShow(tree, k + 1, required, prefix);
      ShowStep(tree, k, Routes(tree.children[k], required), prefix, PathsFrom(tree.children[k], required, prefix + [tree]));
    }
  }

  lemma ShowStep(tree: Tree, k: nat, routes: seq<seq<nat>>, prefix: seq<Tree>, paths: seq<seq<Tree>>)
    requires k < |tree.children| && Show(tree.children[k], routes, prefix + [tree], paths)
    ensures Show(tree, Prepend(k, routes), prefix, paths)
  {
    forall i | 0 <= i < |routes|
      ensures IsRoute(tree, Prepend(k, routes)[i]) && paths[i] == prefix + NodesOn(tree, Prepend(k, routes)[i])
    {
      var r := [k] + routes[i];
      assert r[1..] == routes[i];
      assert prefix + [tree] + NodesOn(tree.children[k], routes[i]) == prefix + NodesOn(tree, r);
    }
  }

  /** In every tree the search returns, in depth-first order and therefore once each, exactly the paths from
      the root to the first node named `required` on them. */
  lemma TreeSearchIsExact(tree: Tree, required: string) returns (routes: seq<seq<nat>>)
    ensures forall r :: r in routes <==> Hits(tree, r, required)
    ensures InDepthFirstOrder(routes)
    ensures Show(tree, routes, [], PathsFrom(tree, required, []))
  {
    routes := Routes(tree, required);
    forall r ensures r in routes <==> Hits(tree, r, required) {
      RoutesHit(tree, r, required);
    }
    RoutesOrdered(tree, required);
    PathsShow(tree, required, []);
  }
}
