/** The inputs of a summary run: edge sets, layers, and the fingerprint each function
    must get. */
module SummaryPlan {
  import opened Orders
  import opened CallGraph
  import opened Layering

  // ------------------------------------------------ edge sets

  datatype Function = Function(name: string, isExternal: bool, isLibrary: bool, sha: string, source: string)

  datatype Call = Call(source: Id, target: Id)

  predicate Internal(functions: map<Id, Function>, f: Id) {
    f in functions && !functions[f].isExternal && !functions[f].isLibrary
  }

  function InternalIds(functions: map<Id, Function>): set<Id> {
    set f | f in functions && Internal(functions, f)
  }

  /** Internal functions that `f` calls in `calls`. */
  function CalleesIn(functions: map<Id, Function>, calls: seq<Call>, f: Id): set<Id> {
    set c | c in calls && c.source == f && Internal(functions, c.target) :: c.target
  }

  /** Names of the external and library functions that `f` calls in `calls`. */
  function ExternalsIn(functions: map<Id, Function>, calls: seq<Call>, f: Id): set<string> {
    set c | c in calls && c.source == f && c.target in functions && !Internal(functions, c.target) ::
      functions[c.target].name
  }

  ghost predicate EdgesOf(functions: map<Id, Function>, calls: seq<Call>, dependencies: map<Id, set<Id>>, externals: map<Id, set<string>>) {
    && dependencies.Keys == externals.Keys == InternalIds(functions)
    && (forall f :: f in dependencies ==> dependencies[f] == CalleesIn(functions, calls, f))
    && (forall f :: f in externals ==> externals[f] == ExternalsIn(functions, calls, f))
  }

  lemma OneMoreCall(functions: map<Id, Function>, calls: seq<Call>, n: nat, f: Id)
    requires n < |calls|
    ensures CalleesIn(functions, calls[..n + 1], f) == CalleesIn(functions, calls[..n], f) + CalleesIn(functions, [calls[n]], f)
    ensures ExternalsIn(functions, calls[..n + 1], f) == ExternalsIn(functions, calls[..n], f) + ExternalsIn(functions, [calls[n]], f)
  {
    assert calls[..n + 1] == calls[..n] + [calls[n]];
  }

  lemma OneCall(functions: map<Id, Function>, call: Call, f: Id)
    ensures CalleesIn(functions, [call], f) ==
            if f == call.source && call.target in functions && call.target in InternalIds(functions) then {call.target} else {}
    ensures ExternalsIn(functions, [call], f) ==
            if f == call.source && call.target in functions && (functions[call.target].isExternal || functions[call.target].isLibrary)
            then {functions[call.target].name} else {}
  {
    assert [call][0] == call;
  }

  predicate Outside(functions: map<Id, Function>, f: Id) {
    f in functions && (functions[f].isExternal || functions[f].isLibrary)
  }

  lemma EdgesOneMore(functions: map<Id, Function>, calls: seq<Call>, n: nat, dependencies: map<Id, set<Id>>,
                     externals: map<Id, set<string>>, dependencies': map<Id, set<Id>>, externals': map<Id, set<string>>)
    requires n < |calls| && EdgesOf(functions, calls[..n], dependencies, externals)
    requires var source, target := calls[n].source, calls[n].target;
      && dependencies' == (if source in dependencies && target in InternalIds(functions)
                           then dependencies[source := dependencies[source] + {target}] else dependencies)
      && externals' == (if source in externals && Outside(functions, target)
                        then externals[source := externals[source] + {functions[target].name}] else externals)
    ensures EdgesOf(functions, calls[..n + 1], dependencies', externals')
  {
    hide CalleesIn, ExternalsIn;
    forall f | f in InternalIds(functions)
      ensures dependencies'[f] == CalleesIn(functions, calls[..n + 1], f)
      ensures externals'[f] == ExternalsIn(functions, calls[..n + 1], f)
    {
      OneMoreCall(functions, calls, n, f);
      OneCall(functions, calls[n], f);
      assert dependencies[f] == CalleesIn(functions, calls[..n], f) && externals[f] == ExternalsIn(functions, calls[..n], f);
    }
  }

  /** Some call leads from `f` to `c`, a function of the project. */
  predicate CallsInternal(functions: map<Id, Function>, calls: seq<Call>, f: Id, c: Id) {
    c in functions && !functions[c].isExternal && !functions[c].isLibrary && Call(f, c) in calls
  }

  /** Some call leads from `f` to an external or library function of that name. */
  ghost predicate CallsNamed(functions: map<Id, Function>, calls: seq<Call>, f: Id, name: string) {
    exists k :: 0 <= k < |calls| && calls[k].source == f && calls[k].target in functions
      && (functions[calls[k].target].isExternal || functions[calls[k].target].isLibrary)
      && functions[calls[k].target].name == name
  }

  /** The constructor's loop over the calls. */
  method BuildEdges(functions: map<Id, Function>, calls: seq<Call>)
    returns (dependencies: map<Id, set<Id>>, externalCalls: map<Id, set<string>>)
    ensures dependencies.Keys == externalCalls.Keys == InternalIds(functions)
    ensures forall f :: f in dependencies ==> dependencies[f] == CalleesIn(functions, calls, f)
    ensures forall f :: f in externalCalls ==> externalCalls[f] == ExternalsIn(functions, calls, f)
    ensures forall f :: f in dependencies <==> f in functions && !functions[f].isExternal && !functions[f].isLibrary
    ensures forall f, c :: f in dependencies ==>
      (c in dependencies[f] <==> CallsInternal(functions, calls, f, c))
    ensures forall f, name :: f in externalCalls ==>
      (name in externalCalls[f] <==> CallsNamed(functions, calls, f, name))
  {
    hide CallsInternal, CallsNamed, CalleesIn, ExternalsIn, InternalIds;
    var internal := InternalIds(functions);
    dependencies := map f | f in internal :: {};
    externalCalls := map f | f in internal :: {};
    NoEdges(functions, dependencies, externalCalls);
    for k := 0 to |calls|
      invariant EdgesOf(functions, calls[..k], dependencies, externalCalls)
    {
      var Call(source, target) := calls[k];
      ghost var before, externalsBefore := dependencies, externalCalls;
      if source in internal && target in functions {
        if functions[target].isExternal || functions[target].isLibrary {
          externalCalls := externalCalls[source := externalCalls[source] + {functions[target].name}];
        }
        if target in internal {
          dependencies := dependencies[source := dependencies[source] + {target}];
        }
      }
      InternalKnown(functions, target);
      EdgesOneMore(functions, calls, k, before, externalsBefore, dependencies, externalCalls);
    }
    assert calls[..|calls|] == calls;
    forall f ensures f in InternalIds(functions) <==> f in functions && !functions[f].isExternal && !functions[f].isLibrary {
      InternalIff(functions, f);
    }
    forall f, c ensures c in CalleesIn(functions, calls, f) <==> CallsInternal(functions, calls, f, c) {
      CalleesAre(functions, calls, f, c);
    }
    forall f, name ensures name in ExternalsIn(functions, calls, f) <==> CallsNamed(functions, calls, f, name) {
      ExternalsAre(functions, calls, f, name);
    }
  }

  lemma InternalIff(functions: map<Id, Function>, f: Id)
    ensures f in InternalIds(functions) <==> f in functions && !functions[f].isExternal && !functions[f].isLibrary
  {
  }

  lemma CalleesAre(functions: map<Id, Function>, calls: seq<Call>, f: Id, c: Id)
    ensures c in CalleesIn(functions, calls, f) <==> CallsInternal(functions, calls, f, c)
  {
  }

  lemma ExternalsAre(functions: map<Id, Function>, calls: seq<Call>, f: Id, name: string)
    ensures name in ExternalsIn(functions, calls, f) <==> CallsNamed(functions, calls, f, name)
  {
    if k :| 0 <= k < |calls| && calls[k].source == f && calls[k].target in functions
            && (functions[calls[k].target].isExternal || functions[calls[k].target].isLibrary)
            && functions[calls[k].target].name == name {
      assert calls[k] in calls;
    }
  }

  lemma NoEdges(functions: map<Id, Function>, dependencies: map<Id, set<Id>>, externals: map<Id, set<string>>)
    requires dependencies.Keys == externals.Keys == InternalIds(functions)
    requires forall f :: f in dependencies ==> dependencies[f] == {} && externals[f] == {}
    ensures EdgesOf(functions, [], dependencies, externals)
  {
  }

  lemma InternalKnown(functions: map<Id, Function>, f: Id)
    ensures f in InternalIds(functions) ==> f in functions
  {
  }

  /** The graph a run hands to `dependency_layers` never raises its `KeyError`. */
  lemma RunGraphIsClosed(functions: map<Id, Function>, calls: seq<Call>, dependencies: map<Id, set<Id>>)
    requires dependencies.Keys == InternalIds(functions)
    requires forall f :: f in dependencies ==> dependencies[f] == CalleesIn(functions, calls, f)
    ensures !CalleeUnknown(Graph(InternalIds(functions), dependencies))
  {
  }

  // ------------------------------------------------ tasks

  /** What `run` passes to each task: the layer index and `set(component)`. */
  datatype Schedule = Schedule(layerOf: map<Id, nat>, groupOf: map<Id, set<Id>>, height: nat)

  /** A group shares its layer; a callee is in the own group or in an earlier layer. */
  ghost predicate GoodTask(g: Graph, s: Schedule, f: Id) {
    && f in s.layerOf && f in s.groupOf && s.layerOf[f] < s.height && f in s.groupOf[f]
    && (forall c :: c in s.groupOf[f] ==>
          c in g.nodes && c in s.layerOf && c in s.groupOf && s.layerOf[c] == s.layerOf[f] && s.groupOf[c] == s.groupOf[f])
    && (forall c :: c in Callees(g, f) && c !in s.groupOf[f] ==>
          c in g.nodes && c in s.layerOf && s.layerOf[c] < s.layerOf[f])
  }

  ghost predicate ValidSchedule(g: Graph, s: Schedule) {
    && s.layerOf.Keys == g.nodes && s.groupOf.Keys == g.nodes
    && forall f {:trigger GoodTask(g, s, f)} :: f in g.nodes ==> GoodTask(g, s, f)
  }

  /** The task of `f` is that of a slot that holds it. */
  ghost predicate TaskFor(layers: Layers, s: Schedule, f: Id) {
    && f in s.layerOf && f in s.groupOf
    && exists k :: Placed(layers, s.layerOf[f], k, f) && s.groupOf[f] == Elements(layers[s.layerOf[f]][k])
  }

  /** The tasks that `run` creates, layer by layer. */
  method Tasks(layers: Layers) returns (s: Schedule)
    ensures s.height == |layers|
    ensures forall f :: f in s.layerOf || f in s.groupOf ==> TaskFor(layers, s, f)
    ensures forall l, k, f :: Placed(layers, l, k, f) ==> f in s.layerOf
  {
    s := Schedule(map[], map[], |layers|);
    for l := 0 to |layers|
      invariant s.height == |layers|
      invariant forall f :: f in s.layerOf || f in s.groupOf ==> TaskFor(layers, s, f)
      invariant forall l', k, f :: Placed(layers, l', k, f) && l' < l ==> f in s.layerOf
    {
      for k := 0 to |layers[l]|
        invariant s.height == |layers|
        invariant forall f :: f in s.layerOf || f in s.groupOf ==> TaskFor(layers, s, f)
        invariant forall l', k', f :: Placed(layers, l', k', f) && (l' < l || (l' == l && k' < k)) ==> f in s.layerOf
      {
        s := AddComponent(layers, l, k, s);
      }
    }
  }

  method AddComponent(layers: Layers, l: nat, k: nat, before: Schedule) returns (s: Schedule)
    requires Slot(layers, l, k)
    requires forall f :: f in before.layerOf || f in before.groupOf ==> TaskFor(layers, before, f)
    ensures s.height == before.height
    ensures forall f :: f in s.layerOf || f in s.groupOf ==> TaskFor(layers, s, f)
    ensures forall f :: f in s.layerOf <==> f in before.layerOf || f in layers[l][k]
  {
    var component := layers[l][k];
    s := before.(layerOf := before.layerOf + map f | f in component :: l,
                 groupOf := before.groupOf + map f | f in component :: Elements(component));
    forall f | f in s.layerOf || f in s.groupOf ensures TaskFor(layers, s, f) {
      if f in component {
        assert Placed(layers, l, k, f);
      } else {
        assert TaskFor(layers, before, f);
      }
    }
  }

  lemma GroupIsSlot(g: Graph, layers: Layers, s: Schedule, l: int, k: int, f: Id)
    requires Layered(g, layers) && TaskFor(layers, s, f) && Placed(layers, l, k, f)
    ensures s.layerOf[f] == l && s.groupOf[f] == Elements(layers[l][k])
  {
  }

  /** The layers of `dependency_layers` give a valid schedule. */
  lemma TasksAreValid(g: Graph, layers: Layers, s: Schedule)
    requires Layered(g, layers) && !CalleeUnknown(g) && s.height == |layers|
    requires forall f :: f in s.layerOf || f in s.groupOf ==> TaskFor(layers, s, f)
    requires forall l, k, f :: Placed(layers, l, k, f) ==> f in s.layerOf
    ensures ValidSchedule(g, s)
  {
    hide Layered;
    KeysAreNodes(g, layers, s);
    forall f | f in g.nodes ensures GoodTask(g, s, f) {
      forall c | c in s.groupOf[f]
        ensures c in g.nodes && s.layerOf[c] == s.layerOf[f] && s.groupOf[c] == s.groupOf[f]
      {
        GroupShared(g, layers, s, f, c);
      }
      forall c | c in Callees(g, f) && c !in s.groupOf[f] ensures c in g.nodes && s.layerOf[c] < s.layerOf[f] {
        CalleeScheduled(g, layers, s, f, c);
      }
    }
  }

  lemma KeysAreNodes(g: Graph, layers: Layers, s: Schedule)
    requires Layered(g, layers) && s.height == |layers|
    requires forall f :: f in s.layerOf || f in s.groupOf ==> TaskFor(layers, s, f)
    requires forall l, k, f :: Placed(layers, l, k, f) ==> f in s.layerOf
    ensures s.layerOf.Keys == g.nodes && s.groupOf.Keys == g.nodes
    ensures forall f :: f in g.nodes ==> s.layerOf[f] < s.height && f in s.groupOf[f]
  {
    forall f | f in s.layerOf || f in s.groupOf ensures f in g.nodes && f in s.layerOf && f in s.groupOf {
      assert TaskFor(layers, s, f);
      assert PlacedSomewhere(layers, f);
    }
    forall f | f in g.nodes ensures f in s.layerOf && TaskFor(layers, s, f) {
      assert PlacedSomewhere(layers, f);
    }
  }

  lemma GroupShared(g: Graph, layers: Layers, s: Schedule, f: Id, c: Id)
    requires Layered(g, layers)
    requires TaskFor(layers, s, f) && c in s.groupOf[f]
    requires s.layerOf.Keys == g.nodes && s.groupOf.Keys == g.nodes
    requires forall x :: x in s.layerOf ==> TaskFor(layers, s, x)
    ensures c in g.nodes && s.layerOf[c] == s.layerOf[f] && s.groupOf[c] == s.groupOf[f]
  {
    var l := s.layerOf[f];
    var k :| Placed(layers, l, k, f) && s.groupOf[f] == Elements(layers[l][k]);
    assert Placed(layers, l, k, c);
    assert PlacedSomewhere(layers, c);
    GroupIsSlot(g, layers, s, l, k, c);
  }

  lemma CalleeScheduled(g: Graph, layers: Layers, s: Schedule, f: Id, c: Id)
    requires Layered(g, layers) && !CalleeUnknown(g)
    requires s.layerOf.Keys == g.nodes && s.groupOf.Keys == g.nodes
    requires forall x :: x in s.layerOf ==> TaskFor(layers, s, x)
    requires f in g.nodes && c in Callees(g, f)
    ensures c in g.nodes && (c in s.groupOf[f] || s.layerOf[c] < s.layerOf[f])
  {
    assert PlacedSomewhere(layers, f) && PlacedSomewhere(layers, c);
    var l, k :| Placed(layers, l, k, f);
    var l', k' :| Placed(layers, l', k', c);
    assert Edge(g, f, c);
    assert SlotCalls(g, layers, l, k, l', k');
    GroupIsSlot(g, layers, s, l, k, f);
    GroupIsSlot(g, layers, s, l', k', c);
  }

  /** Every task comes from the layers, and every function in the layers has one. */
  ghost predicate TasksOf(layers: Layers, s: Schedule) {
    && s.height == |layers|
    && (forall f :: f in s.layerOf || f in s.groupOf ==> TaskFor(layers, s, f))
    && (forall l, k, f :: Placed(layers, l, k, f) ==> f in s.layerOf)
  }

  // ------------------------------------------------ the groups determine the schedule

  /** A group above layer 0 calls into the layer right below it. */
  ghost predicate CallsBelow(g: Graph, s: Schedule, f: Id) {
    exists u, c :: f in s.groupOf && u in s.groupOf[f] && c in Callees(g, u) && f in s.layerOf && c in s.layerOf
                   && s.layerOf[c] + 1 == s.layerOf[f]
  }

  ghost predicate Inhabited(s: Schedule, l: int) {
    exists f :: f in s.layerOf && s.layerOf[f] == l
  }

  /** No layer could be lower, and none is empty. */
  ghost predicate Tight(g: Graph, s: Schedule) {
    && (forall f :: f in s.layerOf && s.layerOf[f] > 0 ==> CallsBelow(g, s, f))
    && (forall l :: 0 <= l < s.height ==> Inhabited(s, l))
  }

  ghost predicate NothingEmpty(layers: Layers) {
    forall l :: 0 <= l < |layers| ==> layers[l] != [] && forall k :: 0 <= k < |layers[l]| ==> layers[l][k] != []
  }

  lemma TaskCallsBelow(g: Graph, layers: Layers, s: Schedule, f: Id)
    requires Layered(g, layers) && TasksOf(layers, s) && f in s.layerOf && s.layerOf[f] > 0
    ensures CallsBelow(g, s, f)
  {
    hide Layered;
    var l := s.layerOf[f];
    var k :| Placed(layers, l, k, f) && s.groupOf[f] == Elements(layers[l][k]);
    CallsDown(g, layers, l, k);
    var k' :| SlotCalls(g, layers, l, k, l - 1, k');
    var u, c :| Edge(g, u, c) && Placed(layers, l, k, u) && Placed(layers, l - 1, k', c);
    GroupIsSlot(g, layers, s, l - 1, k', c);
  }

  lemma CallsDown(g: Graph, layers: Layers, l: int, k: int)
    requires Layered(g, layers) && Slot(layers, l, k) && l > 0
    ensures CallsLayer(g, layers, l, k, l - 1)
  {
    hide SlotCalls;
  }

  lemma TasksAreTight(g: Graph, layers: Layers, s: Schedule)
    requires Layered(g, layers) && TasksOf(layers, s) && NothingEmpty(layers)
    ensures Tight(g, s)
  {
    hide Layered, CallsBelow;
    forall f | f in s.layerOf && s.layerOf[f] > 0 ensures CallsBelow(g, s, f) {
      TaskCallsBelow(g, layers, s, f);
    }
    forall l | 0 <= l < s.height ensures Inhabited(s, l) {
      var f := layers[l][0][0];
      assert Placed(layers, l, 0, f);
      GroupIsSlot(g, layers, s, l, 0, f);
    }
  }

  lemma {:induction false} LayerAtMost(g: Graph, s: Schedule, s': Schedule, f: Id)
    requires ValidSchedule(g, s) && Tight(g, s) && ValidSchedule(g, s') && s.groupOf == s'.groupOf && f in g.nodes
    ensures s.layerOf[f] <= s'.layerOf[f]
    decreases s.layerOf[f]
  {
    if s.layerOf[f] > 0 {
      assert CallsBelow(g, s, f);
      var u, c :| u in s.groupOf[f] && c in Callees(g, u) && c in s.layerOf && s.layerOf[c] + 1 == s.layerOf[f];
      assert GoodTask(g, s, f) && GoodTask(g, s', f);
      assert GoodTask(g, s, u) && GoodTask(g, s', u);
      LayerAtMost(g, s, s', c);
    }
  }

  /** There is one tight schedule for given groups. */
  lemma ScheduleUnique(g: Graph, s: Schedule, s': Schedule)
    requires ValidSchedule(g, s) && Tight(g, s) && ValidSchedule(g, s') && Tight(g, s') && s.groupOf == s'.groupOf
    ensures s == s'
  {
    hide Tight, GoodTask;
    forall f | f in g.nodes ensures s.layerOf[f] == s'.layerOf[f] {
      LayerAtMost(g, s, s', f);
      LayerAtMost(g, s', s, f);
    }
    HeightAtMost(g, s, s');
    HeightAtMost(g, s', s);
  }

  lemma HeightAtMost(g: Graph, s: Schedule, s': Schedule)
    requires ValidSchedule(g, s) && ValidSchedule(g, s') && Tight(g, s) && s.layerOf == s'.layerOf
    ensures s.height <= s'.height
  {
    forall f | f in s'.layerOf ensures s'.layerOf[f] < s'.height {
      assert GoodTask(g, s', f);
    }
    assert !Inhabited(s, s'.height);
  }

  // ------------------------------------------------ fingerprints

  /** What is hashed for one function. */
  datatype Payload = Payload(source: string, dependencies: seq<string>, peers: seq<string>,
                             external: seq<string>, model: string, wikiUrl: string)

  /** The fixed inputs of a run. `sha256` is applied to source text, `digest` to the JSON
      text of a payload. */
  datatype Plan = Plan(functions: map<Id, Function>, g: Graph, external: map<Id, set<string>>, schedule: Schedule,
                       model: string, wikiUrl: string, concurrency: int,
                       sha256: string -> string, digest: Payload -> string)

  ghost predicate ValidPlan(p: Plan) {
    && ValidSchedule(p.g, p.schedule)
    && p.g.nodes <= p.functions.Keys && p.g.nodes <= p.external.Keys
  }

  /** The edges of a plan are those of the recorded calls. */
  ghost predicate PlanOfCalls(p: Plan, functions: map<Id, Function>, calls: seq<Call>) {
    && p.functions == functions && p.g.nodes == InternalIds(functions)
    && EdgesOf(functions, calls, p.g.deps, p.external)
  }

  /** From the recorded functions and calls to the tasks of the run: the constructor, `dependency_layers`, and the
      task loop. The plan is valid, whatever the functions and calls are. */
  method PlanRun(functions: map<Id, Function>, calls: seq<Call>, model: string, wikiUrl: string, concurrency: int,
                 sha256: string -> string, digest: Payload -> string)
    returns (p: Plan, layers: Layers)
    ensures PlanOfCalls(p, functions, calls) && ValidPlan(p)
    ensures Layered(p.g, layers) && forall f :: f in p.g.nodes ==> TaskFor(layers, p.schedule, f)
    ensures p.model == model && p.wikiUrl == wikiUrl && p.concurrency == concurrency && p.sha256 == sha256 && p.digest == digest
  {
    hide Layered, CalleesIn, ExternalsIn, CalleeUnknown, TaskFor, InternalIds, ValidSchedule, PlanOfCalls, ValidPlan, Placed;
    var dependencies, externalCalls := BuildEdges(functions, calls);
    var g := Graph(InternalIds(functions), dependencies);
    RunGraphIsClosed(functions, calls, dependencies);
    var r := DependencyLayers(g);
    layers := r.value;
    var schedule := Tasks(layers);
    p := Plan(functions, g, externalCalls, schedule, model, wikiUrl, concurrency, sha256, digest);
    PlanIsValid(p, layers, calls);
  }

  lemma PlanIsValid(p: Plan, layers: Layers, calls: seq<Call>)
    requires p.g.nodes == InternalIds(p.functions) && EdgesOf(p.functions, calls, p.g.deps, p.external)
    requires Layered(p.g, layers) && TasksOf(layers, p.schedule)
    ensures PlanOfCalls(p, p.functions, calls) && ValidPlan(p)
    ensures forall f :: f in p.g.nodes ==> TaskFor(layers, p.schedule, f)
  {
    hide Layered, CalleesIn, ExternalsIn, CalleeUnknown, TaskFor, ValidSchedule;
    RunGraphIsClosed(p.functions, calls, p.g.deps);
    TasksAreValid(p.g, layers, p.schedule);
    InternalAreFunctions(p.functions);
    NodesScheduled(p.g, p.schedule);
  }

  lemma InternalAreFunctions(functions: map<Id, Function>)
    ensures InternalIds(functions) <= functions.Keys
  {
  }

  lemma NodesScheduled(g: Graph, s: Schedule)
    requires ValidSchedule(g, s)
    ensures s.layerOf.Keys == g.nodes
  {
  }

  /** `sorted(self.dependencies[f] - recursive_group)` */
  function OutsideCallees(p: Plan, f: Id): (r: seq<Id>)
    requires f in p.schedule.groupOf
    ensures forall c :: c in r <==> c in Callees(p.g, f) && c !in p.schedule.groupOf[f]
  {
    Sorted(Callees(p.g, f) - p.schedule.groupOf[f])
  }

  /** `sorted(recursive_group - {f})` */
  function Peers(p: Plan, f: Id): (r: seq<Id>)
    requires f in p.schedule.groupOf
    ensures forall c :: c in r <==> c in p.schedule.groupOf[f] && c != f
  {
    Sorted(p.schedule.groupOf[f] - {f})
  }

  /** `function.get("source_sha256") or sha256(source)` */
  function SourceDigest(p: Plan, f: Id): string
    requires f in p.functions
  {
    if p.functions[f].sha != "" then p.functions[f].sha else p.sha256(p.functions[f].source)
  }

  /** `get("source_sha256", "")` of the given peers. */
  function PeerDigests(p: Plan, peers: seq<Id>): (r: seq<string>)
    ensures |r| == |peers|
  {
    seq(|peers|, i requires 0 <= i < |peers| => if peers[i] in p.functions then p.functions[peers[i]].sha else "")
  }

  function PayloadOf(p: Plan, f: Id, dependencies: seq<string>): Payload
    requires f in p.functions && f in p.external && f in p.schedule.groupOf
  {
    Payload(SourceDigest(p, f), dependencies, PeerDigests(p, Peers(p, f)), Sorted(p.external[f]), p.model, p.wikiUrl)
  }

  ghost function Layer(p: Plan, f: Id): nat {
    if f in p.schedule.layerOf then p.schedule.layerOf[f] else 0
  }

  /** The fingerprint `f` must get, whatever the schedule: a recursion over the layers. */
  ghost function Fingerprint(p: Plan, f: Id): string
    requires ValidPlan(p) && f in p.g.nodes
    decreases Layer(p, f), 0, 1
  {
    assert GoodTask(p.g, p.schedule, f);
    p.digest(PayloadOf(p, f, Fingerprints(p, f, OutsideCallees(p, f))))
  }

  ghost function Fingerprints(p: Plan, f: Id, callees: seq<Id>): (r: seq<string>)
    requires ValidPlan(p) && f in p.g.nodes
    requires forall c :: c in callees ==> c in p.g.nodes && Layer(p, c) < Layer(p, f)
    ensures |r| == |callees|
    decreases Layer(p, f), 0, 0, |callees|
  {
    if callees == [] then []
    else [Fingerprint(p, callees[0])] + Fingerprints(p, f, callees[1..])
  }

  /** The fingerprints of the callees outside the group, in order. */
  ghost function CalleeFingerprints(p: Plan, f: Id): seq<string>
    requires ValidPlan(p) && f in p.g.nodes
  {
    assert GoodTask(p.g, p.schedule, f);
    Fingerprints(p, f, OutsideCallees(p, f))
  }

  lemma FingerprintUnfolds(p: Plan, f: Id)
    requires ValidPlan(p) && f in p.g.nodes
    ensures Fingerprint(p, f) == p.digest(PayloadOf(p, f, CalleeFingerprints(p, f)))
    ensures |CalleeFingerprints(p, f)| == |OutsideCallees(p, f)|
    ensures forall i :: 0 <= i < |OutsideCallees(p, f)| ==>
              OutsideCallees(p, f)[i] in p.g.nodes && CalleeFingerprints(p, f)[i] == Fingerprint(p, OutsideCallees(p, f)[i])
  {
    var callees := OutsideCallees(p, f);
    OutsideIsEarlier(p, f);
    forall i | 0 <= i < |callees|
      ensures callees[i] in p.g.nodes && CalleeFingerprints(p, f)[i] == Fingerprint(p, callees[i])
    {
      FingerprintsAt(p, f, callees, i);
    }
  }

  lemma OutsideIsEarlier(p: Plan, f: Id)
    requires ValidPlan(p) && f in p.g.nodes
    ensures forall c :: c in OutsideCallees(p, f) ==> c in p.g.nodes && Layer(p, c) < Layer(p, f)
  {
    assert GoodTask(p.g, p.schedule, f);
  }

  lemma {:induction false} FingerprintsAt(p: Plan, f: Id, callees: seq<Id>, i: nat)
    requires ValidPlan(p) && f in p.g.nodes && i < |callees|
    requires forall c :: c in callees ==> c in p.g.nodes && Layer(p, c) < Layer(p, f)
    ensures Fingerprints(p, f, callees)[i] == Fingerprint(p, callees[i])
  {
    hide ValidPlan, Fingerprint;
    if i > 0 {
      FingerprintsAt(p, f, callees[1..], i - 1);
    }
  }
}
