/** What the path search on an unfolded tree finds, in terms of the call graph: macros and callbacks included. */
module CallTreePaths {
  import opened Wrappers
  import opened Orders
  import opened CallTree
  import opened TreeSearch

  // ------------------------------------------------ walks on the call graph

  /** A function called at `line` with `callbacks`, or a use of a macro. */
  datatype Place = Called(id: string, callbacks: seq<FunctionNode>, line: Option<int>) | MacroUse(site: CallSite)

  /** From a function to its call site `k`, or to that with its callback `c`; from a function called with callbacks to one
      of them; from a macro to what it expands to. */
  datatype Step = Call(k: nat) | CallWith(k: nat, c: nat) | Callback(c: nat) | Expand

  /** The node shown for an id. */
  function NodeOf(p: Program, id: string): FunctionNode {
    if id in p.registry then p.registry[id] else FunctionNode(id, "", true, None, -1, -1)
  }

  function NodeAt(p: Program, place: Place): FunctionNode {
    match place
    case Called(id, _, _) => NodeOf(p, id)
    case MacroUse(site) => site.callee
  }

  /** The place behind a step, if there is such a step; functions without a definition have none. */
  function Next(p: Program, place: Place, step: Step): Option<Place> {
    match (place, step)
    case (Called(id, _, _), Call(k)) =>
      if id !in p.registry || k >= |Sites(p, id)| then None
      else
        var site := Sites(p, id)[k];
        if site.callee.macroExpansion.Some? then Some(MacroUse(site))
        else if site.callbacks == [] then Some(Called(UniqueId(site.callee), [], Some(site.line)))
        else None
    case (Called(id, _, _), CallWith(k, c)) =>
      if id !in p.registry || k >= |Sites(p, id)| then None
      else
        var site := Sites(p, id)[k];
        if site.callee.macroExpansion.None? && c < |site.callbacks| then
          Some(Called(UniqueId(site.callee), [site.callbacks[c]], Some(site.line)))
        else None
    case (Called(id, callbacks, line), Callback(c)) =>
      if id in p.registry && c < |callbacks| then Some(Called(UniqueId(callbacks[c]), [], line)) else None
    case (MacroUse(site), Expand) =>
      if site.callee.macroExpansion.Some? then Some(Called(UniqueId(site.callee.macroExpansion.value), [], Some(site.line)))
      else None
    case (_, _) => None
  }

  predicate IsWalk(p: Program, place: Place, w: seq<Step>)
    decreases |w|
  {
    w == [] || (Next(p, place, w[0]).Some? && IsWalk(p, Next(p, place, w[0]).value, w[1..]))
  }

  /** The places on a walk, `place` first. */
  function Visits(p: Program, place: Place, w: seq<Step>): (r: seq<Place>)
    requires IsWalk(p, place, w)
    ensures |r| == |w| + 1 && r[0] == place
    decreases |w|
  {
    [place] + if w == [] then [] else Visits(p, Next(p, place, w[0]).value, w[1..])
  }

  /** No function is visited twice. */
  ghost predicate OnceEach(places: seq<Place>) {
    forall i, j :: 0 <= i < j < |places| && places[i].Called? && places[j].Called? ==> places[i].id != places[j].id
  }

  /** The walk ends at the first place named `required` and repeats no function. */
  ghost predicate Finds(p: Program, place: Place, w: seq<Step>, required: string) {
    && IsWalk(p, place, w)
    && OnceEach(Visits(p, place, w))
    && LastNamed(p, Visits(p, place, w), required)
  }

  /** The last place is the first one with the name. */
  ghost predicate LastNamed(p: Program, places: seq<Place>, required: string) {
    && places != [] && NodeAt(p, places[|places| - 1]).name == required
    && forall i :: 0 <= i < |places| - 1 ==> NodeAt(p, places[i]).name != required
  }

  /** A tree node shows a place: its function, its callbacks and the line it is called at. */
  predicate ShowsPlace(p: Program, place: Place, node: Tree) {
    && node.func == NodeAt(p, place)
    && node.callbacks == (if place.Called? then place.callbacks else place.site.callbacks)
    && node.line == if place.Called? then place.line else Some(place.site.line)
  }

  ghost predicate ShowsWalk(p: Program, place: Place, w: seq<Step>, path: seq<Tree>) {
    && IsWalk(p, place, w) && |path| == |w| + 1
    && forall i :: 0 <= i < |path| ==> ShowsPlace(p, Visits(p, place, w)[i], path[i])
  }

  // ------------------------------------------------ the order of steps

  /** Call sites in order, at one site callbacks in order, then the callbacks the function was called with. */
  predicate Earlier(a: Step, b: Step) {
    match (a, b)
    case (Expand, _) => false
    case (_, Expand) => false
    case (Callback(c), Callback(d)) => c < d
    case (Callback(_), _) => false
    case (_, Callback(_)) => true
    case (CallWith(k, c), CallWith(l, d)) => k < l || (k == l && c < d)
    case (_, _) => a.k < b.k
  }

  /** At the first difference the earlier walk takes the earlier step. */
  predicate WalkBefore(w: seq<Step>, v: seq<Step>) {
    w != [] && v != [] && (Earlier(w[0], v[0]) || (w[0] == v[0] && WalkBefore(w[1..], v[1..])))
  }

  ghost predicate WalksInOrder(ws: seq<seq<Step>>) {
    forall i, j :: 0 <= i < j < |ws| ==> WalkBefore(ws[i], ws[j])
  }

  lemma {:induction false} NeverBeforeItself(w: seq<Step>)
    ensures !WalkBefore(w, w)
  {
    if w != [] {
      NeverBeforeItself(w[1..]);
    }
  }

  // ------------------------------------------------ the tree of a place

  function TreeAt(p: Program, place: Place, visited: set<string>): Tree {
    match place
    case Called(id, callbacks, line) => Unfold(p, id, visited, line, callbacks)
    case MacroUse(site) =>
      Tree(site.callee, Some(site.line), site.callbacks,
           if site.callee.macroExpansion.None? then []
           else [Unfold(p, UniqueId(site.callee.macroExpansion.value), visited, Some(site.line), [])])
  }

  function VisitedAfter(place: Place, visited: set<string>): set<string> {
    if place.Called? then visited + {place.id} else visited
  }

  function CallbackSteps(k: nat, c: nat, count: nat): seq<Step>
    decreases count - c
  {
    if c >= count then [] else [CallWith(k, c)] + CallbackSteps(k, c + 1, count)
  }

  /** The steps to the site `k`. */
  function StepsTo(site: CallSite, k: nat): seq<Step> {
    if site.callee.macroExpansion.Some? || site.callbacks == [] then [Call(k)] else CallbackSteps(k, 0, |site.callbacks|)
  }

  function SiteSteps(sites: seq<CallSite>, k: nat): seq<Step>
    requires k <= |sites|
    decreases |sites| - k
  {
    if k == |sites| then []
    else
      StepsTo(sites[k], k) + SiteSteps(sites, k + 1)
  }

  function TargetSteps(c: nat, count: nat): seq<Step>
    decreases count - c
  {
    if c >= count then [] else [Callback(c)] + TargetSteps(c + 1, count)
  }

  /** The steps from a place, in order. */
  function Steps(p: Program, place: Place): seq<Step> {
    match place
    case Called(id, callbacks, _) =>
      if id !in p.registry then [] else SiteSteps(Sites(p, id), 0) + TargetSteps(0, |callbacks|)
    case MacroUse(site) => if site.callee.macroExpansion.None? then [] else [Expand]
  }

  ghost predicate StepsInOrder(steps: seq<Step>) {
    forall i, j :: 0 <= i < j < |steps| ==> Earlier(steps[i], steps[j])
  }

  lemma {:induction false} CallbackStepAt(k: nat, c: nat, count: nat)
    requires c <= count
    ensures var steps := CallbackSteps(k, c, count);
      |steps| == count - c && forall i :: 0 <= i < |steps| ==> steps[i] == CallWith(k, c + i)
    decreases count - c
  {
    if c < count {
      CallbackStepAt(k, c + 1, count);
    }
  }

  lemma CallbackStepsAre(k: nat, count: nat)
    ensures StepsInOrder(CallbackSteps(k, 0, count))
    ensures forall step :: step in CallbackSteps(k, 0, count) <==> step.CallWith? && step.k == k && step.c < count
  {
    hide CallbackSteps;
    CallbackStepAt(k, 0, count);
    var steps := CallbackSteps(k, 0, count);
    forall step: Step | step.CallWith? && step.k == k && step.c < count ensures step in steps {
      assert steps[step.c] == step;
    }
  }

  lemma {:induction false} TargetStepAt(c: nat, count: nat)
    requires c <= count
    ensures var steps := TargetSteps(c, count);
      |steps| == count - c && forall i :: 0 <= i < |steps| ==> steps[i] == Callback(c + i)
    decreases count - c
  {
    if c < count {
      TargetStepAt(c + 1, count);
    }
  }

  lemma TargetStepsAre(count: nat)
    ensures StepsInOrder(TargetSteps(0, count))
    ensures forall step :: step in TargetSteps(0, count) <==> step.Callback? && step.c < count
  {
    hide TargetSteps;
    TargetStepAt(0, count);
    var steps := TargetSteps(0, count);
    forall step: Step | step.Callback? && step.c < count ensures step in steps {
      assert steps[step.c] == step;
    }
  }

  /** A step to a call site from `k` on. */
  predicate SiteStep(sites: seq<CallSite>, k: nat, step: Step) {
    match step
    case Call(l) => k <= l < |sites| && (sites[l].callee.macroExpansion.Some? || sites[l].callbacks == [])
    case CallWith(l, c) => k <= l < |sites| && sites[l].callee.macroExpansion.None? && c < |sites[l].callbacks|
    case _ => false
  }

  lemma StepsToAre(sites: seq<CallSite>, k: nat)
    requires k < |sites|
    ensures StepsInOrder(StepsTo(sites[k], k))
    ensures forall step :: step in StepsTo(sites[k], k) <==>
      (step.Call? || step.CallWith?) && step.k == k && SiteStep(sites, k, step)
  {
    hide CallbackSteps, StepsInOrder;
    CallbackStepsAre(k, |sites[k].callbacks|);
    OneInOrder(Call(k));
  }

  lemma OneInOrder(step: Step)
    ensures StepsInOrder([step])
  {
  }

  lemma {:induction false} SiteStepsAre(sites: seq<CallSite>, k: nat)
    requires k <= |sites|
    ensures StepsInOrder(SiteSteps(sites, k))
    ensures forall step :: step in SiteSteps(sites, k) <==> SiteStep(sites, k, step)
    decreases |sites| - k
  {
    hide StepsTo, StepsInOrder;
    if k == |sites| {
      NoneInOrder();
    } else {
      SiteStepsAre(sites, k + 1);
      StepsToAre(sites, k);
      SiteStepsConcat(sites, k, StepsTo(sites[k], k), SiteSteps(sites, k + 1));
    }
  }

  lemma NoneInOrder()
    ensures StepsInOrder([])
  {
  }

  lemma SiteStepsConcat(sites: seq<CallSite>, k: nat, here: seq<Step>, rest: seq<Step>)
    requires StepsInOrder(here) && StepsInOrder(rest)
    requires forall step :: step in here ==> (step.Call? || step.CallWith?) && step.k == k
    requires forall step :: step in rest ==> SiteStep(sites, k + 1, step)
    ensures StepsInOrder(here + rest)
  {
    var all := here + rest;
    forall i, j | 0 <= i < j < |all| ensures Earlier(all[i], all[j]) {
      if i < |here| <= j {
        assert all[i] in here && all[j] in rest;
      }
    }
  }

  /** They are exactly the steps that lead somewhere. */
  lemma StepsAre(p: Program, place: Place)
    ensures StepsInOrder(Steps(p, place))
    ensures forall step :: step in Steps(p, place) <==> Next(p, place, step).Some?
  {
    hide SiteSteps, TargetSteps, Sites, UniqueId;
    if place.Called? && place.id in p.registry {
      SiteStepsAre(Sites(p, place.id), 0);
      TargetStepsAre(|place.callbacks|);
      var a, b := SiteSteps(Sites(p, place.id), 0), TargetSteps(0, |place.callbacks|);
      forall i, j | 0 <= i < |a| && 0 <= j < |b| ensures Earlier(a[i], b[j]) {
        assert a[i] in a && b[j] in b;
      }
    }
  }

  // ------------------------------------------------ the children of a place are its steps

  /** One tree for each step. */
  ghost predicate Follow(p: Program, place: Place, steps: seq<Step>, path: set<string>, trees: seq<Tree>) {
    |trees| == |steps| && forall i :: 0 <= i < |steps| ==>
      Next(p, place, steps[i]).Some? && trees[i] == TreeAt(p, Next(p, place, steps[i]).value, path)
  }

  lemma FollowConcat(p: Program, place: Place, a: seq<Step>, b: seq<Step>, path: set<string>, ta: seq<Tree>, tb: seq<Tree>)
    requires Follow(p, place, a, path, ta) && Follow(p, place, b, path, tb)
    ensures Follow(p, place, a + b, path, ta + tb)
  {
    hide Next, TreeAt;
  }

  lemma FollowOne(p: Program, place: Place, step: Step, path: set<string>, tree: Tree)
    requires Next(p, place, step).Some? && tree == TreeAt(p, Next(p, place, step).value, path)
    ensures Follow(p, place, [step], path, [tree])
  {
    hide Next, TreeAt;
  }

  lemma {:induction false} CallbacksFollow(p: Program, place: Place, k: nat, c: nat, path: set<string>)
    requires place.Called? && place.id in p.registry && k < |Sites(p, place.id)|
    requires var site := Sites(p, place.id)[k]; site.callee.macroExpansion.None? && c <= |site.callbacks|
    ensures var site := Sites(p, place.id)[k];
      Follow(p, place, CallbackSteps(k, c, |site.callbacks|), path, UnfoldPerCallback(p, site, site.callbacks[c..], path))
    decreases |Sites(p, place.id)[k].callbacks| - c
  {
    hide Unfold, Follow;
    var site := Sites(p, place.id)[k];
    if c < |site.callbacks| {
      CallbacksFollow(p, place, k, c + 1, path);
      assert site.callbacks[c..][1..] == site.callbacks[c + 1..];
      FollowOne(p, place, CallWith(k, c), path, Unfold(p, UniqueId(site.callee), path, Some(site.line), [site.callbacks[c]]));
      FollowConcat(p, place, [CallWith(k, c)], CallbackSteps(k, c + 1, |site.callbacks|), path,
                   [Unfold(p, UniqueId(site.callee), path, Some(site.line), [site.callbacks[c]])],
                   UnfoldPerCallback(p, site, site.callbacks[c + 1..], path));
    } else {
      NothingFollows(p, place, path);
    }
  }

  lemma NothingFollows(p: Program, place: Place, path: set<string>)
    ensures Follow(p, place, [], path, [])
  {
  }

  lemma OneSiteFollows(p: Program, place: Place, k: nat, path: set<string>)
    requires place.Called? && place.id in p.registry && k < |Sites(p, place.id)|
    ensures var site := Sites(p, place.id)[k];
      Follow(p, place, StepsTo(site, k), path, UnfoldSite(p, site, path))
  {
    hide Unfold, Follow, CallbackSteps, UnfoldPerCallback;
    var site := Sites(p, place.id)[k];
    if site.callee.macroExpansion.Some? || site.callbacks == [] {
      FollowOne(p, place, Call(k), path, UnfoldSite(p, site, path)[0]);
    } else {
      CallbacksFollow(p, place, k, 0, path);
      assert site.callbacks[0..] == site.callbacks;
    }
  }

  lemma {:induction false} SitesFollow(p: Program, place: Place, k: nat, path: set<string>)
    requires place.Called? && place.id in p.registry && k <= |Sites(p, place.id)|
    ensures Follow(p, place, SiteSteps(Sites(p, place.id), k), path, UnfoldSites(p, Sites(p, place.id)[k..], path))
    decreases |Sites(p, place.id)| - k
  {
    hide Unfold, Follow, UnfoldSite, StepsTo, Sites;
    var sites := Sites(p, place.id);
    if k < |sites| {
      OneSiteFollows(p, place, k, path);
      SitesFollow(p, place, k + 1, path);
      assert sites[k..][1..] == sites[k + 1..];
      FollowConcat(p, place, StepsTo(sites[k], k), SiteSteps(sites, k + 1), path,
                   UnfoldSite(p, sites[k], path), UnfoldSites(p, sites[k + 1..], path));
    } else {
      NothingFollows(p, place, path);
    }
  }

  lemma {:induction false} TargetsFollow(p: Program, place: Place, c: nat, path: set<string>)
    requires place.Called? && place.id in p.registry && c <= |place.callbacks|
    ensures Follow(p, place, TargetSteps(c, |place.callbacks|), path, UnfoldTargets(p, place.callbacks[c..], path, place.line))
    decreases |place.callbacks| - c
  {
    hide Unfold, Follow;
    if c < |place.callbacks| {
      TargetsFollow(p, place, c + 1, path);
      assert place.callbacks[c..][1..] == place.callbacks[c + 1..];
      var tree := Unfold(p, UniqueId(place.callbacks[c]), path, place.line, []);
      FollowOne(p, place, Callback(c), path, tree);
      FollowConcat(p, place, [Callback(c)], TargetSteps(c + 1, |place.callbacks|), path, [tree],
                   UnfoldTargets(p, place.callbacks[c + 1..], path, place.line));
    } else {
      NothingFollows(p, place, path);
    }
  }

  /** The children of a function that is not on the path yet, and of a macro, are its steps. */
  lemma ChildrenFollow(p: Program, place: Place, visited: set<string>)
    requires place.Called? ==> place.id !in visited
    ensures Follow(p, place, Steps(p, place), VisitedAfter(place, visited), TreeAt(p, place, visited).children)
  {
    hide Follow, SiteSteps, TargetSteps, UnfoldSites, UnfoldTargets;
    if place.Called? && place.id in p.registry {
      var path := visited + {place.id};
      SitesFollow(p, place, 0, path);
      TargetsFollow(p, place, 0, path);
      assert Sites(p, place.id)[0..] == Sites(p, place.id) && place.callbacks[0..] == place.callbacks;
      FollowConcat(p, place, SiteSteps(Sites(p, place.id), 0), TargetSteps(0, |place.callbacks|), path,
                   UnfoldSites(p, Sites(p, place.id), path), UnfoldTargets(p, place.callbacks, path, place.line));
    } else if place.MacroUse? && place.site.callee.macroExpansion.Some? {
      FollowOne(p, place, Expand, visited, TreeAt(p, place, visited).children[0]);
    } else {
      NothingFollows(p, place, VisitedAfter(place, visited));
    }
  }

  /** A function that is on the path already has no children. */
  lemma VisitedIsLeaf(p: Program, place: Place, visited: set<string>)
    requires place.Called? && place.id in visited
    ensures TreeAt(p, place, visited).children == []
  {
  }

  lemma TreeShows(p: Program, place: Place, visited: set<string>)
    ensures ShowsPlace(p, place, TreeAt(p, place, visited))
  {
    hide UnfoldSites, UnfoldTargets;
  }

  /** Child `i` stands for step `i`. */
  lemma ChildIs(p: Program, place: Place, visited: set<string>, i: nat)
    requires i < |TreeAt(p, place, visited).children|
    ensures place.Called? ==> place.id !in visited
    ensures i < |Steps(p, place)| && Next(p, place, Steps(p, place)[i]).Some?
    ensures TreeAt(p, place, visited).children[i] == TreeAt(p, Next(p, place, Steps(p, place)[i]).value, VisitedAfter(place, visited))
  {
    hide Unfold, Steps, Next, TreeAt;
    if place.Called? && place.id in visited {
      VisitedIsLeaf(p, place, visited);
    } else {
      ChildrenFollow(p, place, visited);
    }
  }

  // ------------------------------------------------ routes and walks

  /** The steps along a route in the tree of a place. */
  function WalkAlong(p: Program, place: Place, visited: set<string>, r: seq<nat>): (w: seq<Step>)
    requires IsRoute(TreeAt(p, place, visited), r)
    ensures |w| == |r| && IsWalk(p, place, w)
    decreases |r|
  {
    if r == [] then []
    else
      ChildIs(p, place, visited, r[0]);
      var step := Steps(p, place)[r[0]];
      [step] + WalkAlong(p, Next(p, place, step).value, VisitedAfter(place, visited), r[1..])
  }

  lemma {:induction false} NodesShow(p: Program, place: Place, visited: set<string>, r: seq<nat>)
    requires IsRoute(TreeAt(p, place, visited), r)
    ensures ShowsWalk(p, place, WalkAlong(p, place, visited, r), NodesOn(TreeAt(p, place, visited), r))
    decreases |r|
  {
    hide TreeAt, Steps, Next, ShowsPlace;
    TreeShows(p, place, visited);
    if r != [] {
      ChildIs(p, place, visited, r[0]);
      NodesShow(p, Next(p, place, Steps(p, place)[r[0]]).value, VisitedAfter(place, visited), r[1..]);
    }
  }

  /** No function on the path has the name. */
  ghost predicate Without(p: Program, visited: set<string>, required: string) {
    forall id :: id in visited ==> NodeOf(p, id).name != required
  }

  /** `Finds`, with `visited` already on the path. */
  ghost predicate FindsPast(p: Program, place: Place, visited: set<string>, w: seq<Step>, required: string) {
    Finds(p, place, w, required) && AllNotIn(Visits(p, place, w), visited)
  }

  predicate NotIn(place: Place, visited: set<string>) {
    place.Called? ==> place.id !in visited
  }

  predicate AllNotIn(places: seq<Place>, visited: set<string>) {
    forall i :: 0 <= i < |places| ==> NotIn(places[i], visited)
  }

  lemma FindsHere(p: Program, place: Place, visited: set<string>, w: seq<Step>, required: string)
    requires NodeAt(p, place).name == required && Without(p, visited, required)
    ensures FindsPast(p, place, visited, w, required) <==> w == []
  {
    hide Next;
    if w != [] && IsWalk(p, place, w) {
      assert NodeAt(p, Visits(p, place, w)[0]).name == required;
    }
  }

  lemma FindsStep(p: Program, place: Place, visited: set<string>, w: seq<Step>, required: string)
    requires NodeAt(p, place).name != required
    ensures FindsPast(p, place, visited, w, required) <==>
      && w != [] && NotIn(place, visited) && Next(p, place, w[0]).Some?
      && FindsPast(p, Next(p, place, w[0]).value, VisitedAfter(place, visited), w[1..], required)
  {
    hide NodeAt, Next, LastNamed, OnceEach, AllNotIn, VisitedAfter;
    if w == [] {
      assert Visits(p, place, w) == [place];
      NotNamed(p, place, required);
    } else if Next(p, place, w[0]).Some? && IsWalk(p, Next(p, place, w[0]).value, w[1..]) {
      var later := Visits(p, Next(p, place, w[0]).value, w[1..]);
      assert Visits(p, place, w) == [place] + later;
      LaterNamed(p, place, later, required);
      LaterPlaces(p, place, visited, later, required);
    }
  }

  lemma NotNamed(p: Program, place: Place, required: string)
    requires NodeAt(p, place).name != required
    ensures !LastNamed(p, [place], required)
  {
  }

  lemma LaterNamed(p: Program, place: Place, later: seq<Place>, required: string)
    requires later != [] && NodeAt(p, place).name != required
    ensures LastNamed(p, [place] + later, required) <==> LastNamed(p, later, required)
  {
    hide NodeAt;
    var all := [place] + later;
    assert forall i :: 0 <= i < |later| ==> all[i + 1] == later[i];
    if LastNamed(p, all, required) {
      forall i | 0 <= i < |later| - 1 ensures NodeAt(p, later[i]).name != required {
        assert NodeAt(p, all[i + 1]).name != required;
      }
    }
  }

  /** What holds of all places, by the first and the later ones. */
  lemma LaterPlaces(p: Program, place: Place, visited: set<string>, later: seq<Place>, required: string)
    ensures var all := [place] + later;
      (OnceEach(all) && AllNotIn(all, visited)) <==>
      (NotIn(place, visited) && OnceEach(later) && AllNotIn(later, VisitedAfter(place, visited)))
  {
    var all := [place] + later;
    assert all[0] == place && forall i :: 0 <= i < |later| ==> all[i + 1] == later[i];
    if OnceEach(all) && AllNotIn(all, visited) {
      forall i | 0 <= i < |later| ensures NotIn(later[i], VisitedAfter(place, visited)) {
        assert all[i + 1] == later[i] && NotIn(all[i + 1], visited);
      }
      forall i, j | 0 <= i < j < |later| && later[i].Called? && later[j].Called? ensures later[i].id != later[j].id {
        assert all[i + 1] == later[i] && all[j + 1] == later[j];
      }
    }
    if NotIn(place, visited) && OnceEach(later) && AllNotIn(later, VisitedAfter(place, visited)) {
      LaterApart(place, visited, later);
    }
  }

  lemma LaterApart(place: Place, visited: set<string>, later: seq<Place>)
    requires NotIn(place, visited) && OnceEach(later) && AllNotIn(later, VisitedAfter(place, visited))
    ensures OnceEach([place] + later) && AllNotIn([place] + later, visited)
  {
    var all := [place] + later;
    forall i | 0 <= i < |all| ensures NotIn(all[i], visited) {
      if i > 0 { assert NotIn(later[i - 1], VisitedAfter(place, visited)); }
    }
    forall i, j | 0 <= i < j < |all| && all[i].Called? && all[j].Called? ensures all[i].id != all[j].id {
      assert NotIn(later[j - 1], VisitedAfter(place, visited));
      if i > 0 { assert all[i] == later[i - 1]; }
    }
  }

  lemma StepWithout(p: Program, place: Place, visited: set<string>, required: string)
    requires Without(p, visited, required) && NodeAt(p, place).name != required
    ensures Without(p, VisitedAfter(place, visited), required)
  {
  }

  lemma {:induction false} HitsFind(p: Program, place: Place, visited: set<string>, r: seq<nat>, required: string)
    requires IsRoute(TreeAt(p, place, visited), r) && Without(p, visited, required)
    ensures Hits(TreeAt(p, place, visited), r, required) <==>
      FindsPast(p, place, visited, WalkAlong(p, place, visited, r), required)
    decreases |r|
  {
    hide TreeAt, Steps, Next, FindsPast, Without, NodeAt, Hits;
    var tree := TreeAt(p, place, visited);
    TreeShows(p, place, visited);
    var w := WalkAlong(p, place, visited, r);
    if NodeAt(p, place).name == required {
      HitHere(tree, r, required);
      FindsHere(p, place, visited, w, required);
    } else {
      HitStep(tree, r, required);
      FindsStep(p, place, visited, w, required);
      if r != [] {
        ChildIs(p, place, visited, r[0]);
        StepWithout(p, place, visited, required);
        HitsFind(p, Next(p, place, Steps(p, place)[r[0]]).value, VisitedAfter(place, visited), r[1..], required);
        assert w[1..] == WalkAlong(p, Next(p, place, w[0]).value, VisitedAfter(place, visited), r[1..]);
      }
    }
  }

  /** Every walk that finds lies along some route. */
  lemma {:induction false} RouteOf(p: Program, place: Place, visited: set<string>, w: seq<Step>, required: string) returns (r: seq<nat>)
    requires FindsPast(p, place, visited, w, required) && Without(p, visited, required)
    ensures IsRoute(TreeAt(p, place, visited), r) && WalkAlong(p, place, visited, r) == w
    decreases |w|
  {
    hide TreeAt, Steps, Next, FindsPast, Without, NodeAt;
    r := [];
    if NodeAt(p, place).name == required {
      FindsHere(p, place, visited, w, required);
    } else {
      FindsStep(p, place, visited, w, required);
      StepsAre(p, place);
      ChildrenFollow(p, place, visited);
      var i: nat :| i < |Steps(p, place)| && Steps(p, place)[i] == w[0];
      StepWithout(p, place, visited, required);
      var rest := RouteOf(p, Next(p, place, w[0]).value, VisitedAfter(place, visited), w[1..], required);
      r := [i] + rest;
      assert r[1..] == rest;
      assert w == [w[0]] + w[1..];
    }
  }

  lemma {:induction false} OrderKept(p: Program, place: Place, visited: set<string>, r: seq<nat>, q: seq<nat>)
    requires IsRoute(TreeAt(p, place, visited), r) && IsRoute(TreeAt(p, place, visited), q) && Before(r, q)
    ensures WalkBefore(WalkAlong(p, place, visited, r), WalkAlong(p, place, visited, q))
    decreases |r|
  {
    hide TreeAt, Steps, Next, Earlier;
    ChildIs(p, place, visited, r[0]);
    ChildIs(p, place, visited, q[0]);
    StepsAre(p, place);
    if r[0] == q[0] {
      OrderKept(p, Next(p, place, Steps(p, place)[r[0]]).value, VisitedAfter(place, visited), r[1..], q[1..]);
    }
  }

  // ------------------------------------------------ the search

  function Root(id: string): Place {
    Called(id, [], None)
  }

  ghost predicate ShowsWalks(p: Program, place: Place, ws: seq<seq<Step>>, paths: seq<seq<Tree>>) {
    |paths| == |ws| && forall i :: 0 <= i < |ws| ==> ShowsWalk(p, place, ws[i], paths[i])
  }

  lemma FindsFromRoot(p: Program, root: string, w: seq<Step>, required: string)
    ensures FindsPast(p, Root(root), {}, w, required) <==> Finds(p, Root(root), w, required)
  {
    hide Finds, Visits;
  }

  /** The path search on the tree of `root` returns exactly the walks on the call graph from the root that repeat no
      function and end at the first place named `required`, once each and in the order of call sites and callbacks; and
      each path shows the functions, callbacks and lines of its walk. */
  lemma PathSearchIsExact(p: Program, root: string, required: string) returns (ws: seq<seq<Step>>)
    ensures forall w :: w in ws <==> Finds(p, Root(root), w, required)
    ensures WalksInOrder(ws) && NoDuplicates(ws)
    ensures ShowsWalks(p, Root(root), ws, PathsFrom(Unfold(p, root, {}, None, []), required, []))
  {
    hide Unfold, Hits, Finds, FindsPast, WalkBefore, ShowsWalk, WalkAlong;
    var tree := TreeAt(p, Root(root), {});
    var routes := TreeSearchIsExact(tree, required);
    assert forall i :: 0 <= i < |routes| ==> IsRoute(tree, routes[i]);
    ws := seq(|routes|, i requires 0 <= i < |routes| => WalkAlong(p, Root(root), {}, routes[i]));
    forall w ensures w in ws <==> Finds(p, Root(root), w, required) {
      WalksAre(p, root, routes, ws, w, required);
    }
    forall i, j | 0 <= i < j < |ws| ensures WalkBefore(ws[i], ws[j]) && ws[i] != ws[j] {
      OrderKept(p, Root(root), {}, routes[i], routes[j]);
      NeverBeforeItself(ws[i]);
    }
    forall i | 0 <= i < |ws| ensures ShowsWalk(p, Root(root), ws[i], PathsFrom(tree, required, [])[i]) {
      NodesShow(p, Root(root), {}, routes[i]);
      assert [] + NodesOn(tree, routes[i]) == NodesOn(tree, routes[i]);
    }
  }

  lemma WalksAre(p: Program, root: string, routes: seq<seq<nat>>, ws: seq<seq<Step>>, w: seq<Step>, required: string)
    requires var tree := TreeAt(p, Root(root), {});
      && |ws| == |routes| && (forall r :: r in routes <==> Hits(tree, r, required))
      && forall i :: 0 <= i < |routes| ==> IsRoute(tree, routes[i]) && ws[i] == WalkAlong(p, Root(root), {}, routes[i])
    ensures w in ws <==> Finds(p, Root(root), w, required)
  {
    hide TreeAt, Hits, Finds, FindsPast, WalkAlong;
    FindsFromRoot(p, root, w, required);
    if w in ws {
      var i :| 0 <= i < |ws| && ws[i] == w;
      assert routes[i] in routes;
      HitsFind(p, Root(root), {}, routes[i], required);
    }
    if Finds(p, Root(root), w, required) {
      var r := RouteOf(p, Root(root), {}, w, required);
      HitsFind(p, Root(root), {}, r, required);
      var i :| 0 <= i < |routes| && routes[i] == r;
      assert ws[i] == w;
    }
  }
}
