/** A summary run as a state machine: the tasks of a layer interleave at their awaits. */
module SummaryRun {
  import opened Wrappers
  import opened CallGraph
  import opened SummaryPlan

  datatype Outcome = Ready | Cached | Failed

  /** `Waiting` for the semaphore, then holding it while `Asking` the wiki and while
      `Prompting` the model. */
  datatype Task = Pending | Waiting | Asking | Prompting | Settled(outcome: Outcome)

  datatype Entry = Entry(fingerprint: string, summary: string)

  datatype Report = Report(ready: nat, cached: nat, failed: nat)

  datatype State = State(
    layer: nat,
    tasks: map<Id, Task>,
    fingerprints: map<Id, string>,
    summaries: map<Id, Option<string>>,
    prompts: map<Id, seq<Option<string>>>,
    cache: map<Id, Entry>,
    report: Report)

  /** One uninterrupted piece of work between two awaits, or the end of a `gather`. */
  datatype Step = Start(f: Id) | Acquire(f: Id) | Ask(f: Id) | Finish(f: Id, reply: Option<string>) | NextLayer

  function LayerTasks(p: Plan, l: nat): set<Id> {
    set f | f in p.schedule.layerOf && p.schedule.layerOf[f] == l
  }

  function TaskOf(s: State, f: Id): Task {
    if f in s.tasks then s.tasks[f] else Pending
  }

  predicate Holding(t: Task) {
    t.Asking? || t.Prompting?
  }

  function Holders(s: State): set<Id> {
    set f | f in s.tasks && Holding(s.tasks[f])
  }

  /** `Semaphore(max(1, concurrency))` */
  function Limit(p: Plan): nat {
    if p.concurrency < 1 then 1 else p.concurrency
  }

  /** `self.fingerprints.get(child, child)` for the sorted callees outside the group. */
  function RecordedFingerprints(s: State, callees: seq<Id>): (r: seq<string>)
    ensures |r| == |callees|
  {
    seq(|callees|, i requires 0 <= i < |callees| =>
      if callees[i] in s.fingerprints then s.fingerprints[callees[i]] else callees[i])
  }

  /** The callee summaries that `_prompt` puts into the text. */
  function CalleeSummaries(s: State, callees: seq<Id>): (r: seq<Option<string>>)
    ensures |r| == |callees|
  {
    seq(|callees|, i requires 0 <= i < |callees| =>
      if callees[i] in s.summaries then s.summaries[callees[i]] else None)
  }

  predicate Hit(cache: map<Id, Entry>, f: Id, fingerprint: string) {
    f in cache && cache[f].fingerprint == fingerprint && cache[f].summary != ""
  }

  function OutcomesIn(s: State, fs: set<Id>, o: Outcome): set<Id> {
    set f | f in fs && TaskOf(s, f) == Settled(o)
  }

  predicate Enabled(p: Plan, s: State, step: Step) {
    match step
    case Start(f) => f in LayerTasks(p, s.layer) && TaskOf(s, f) == Pending
    case Acquire(f) => f in s.tasks && s.tasks[f] == Waiting && |Holders(s)| < Limit(p)
    case Ask(f) => f in s.tasks && s.tasks[f] == Asking
    case Finish(f, reply) => f in s.tasks && s.tasks[f] == Prompting
    case NextLayer =>
      s.layer < p.schedule.height && forall f :: f in LayerTasks(p, s.layer) ==> TaskOf(s, f).Settled?
  }

  /** The fingerprint is recorded; a cache hit settles the task at once. */
  function Started(s: State, f: Id, fingerprint: string): State {
    var recorded := s.(fingerprints := s.fingerprints[f := fingerprint]);
    if Hit(s.cache, f, fingerprint) then
      recorded.(tasks := s.tasks[f := Settled(Cached)], summaries := s.summaries[f := Some(s.cache[f].summary)])
    else
      recorded.(tasks := s.tasks[f := Waiting])
  }

  function Apply(p: Plan, s: State, step: Step): State
    requires ValidPlan(p)
    requires Enabled(p, s, step)
  {
    match step
    case Start(f) =>
      Started(s, f, p.digest(PayloadOf(p, f, RecordedFingerprints(s, OutsideCallees(p, f)))))
    case Acquire(f) => s.(tasks := s.tasks[f := Asking])
    case Ask(f) =>
      s.(tasks := s.tasks[f := Prompting],
         prompts := s.prompts[f := if f in p.schedule.groupOf then CalleeSummaries(s, OutsideCallees(p, f)) else []])
    case Finish(f, reply) =>
      if reply.None? || reply.value == "" then
        s.(tasks := s.tasks[f := Settled(Failed)], summaries := s.summaries[f := None])
      else
        s.(tasks := s.tasks[f := Settled(Ready)], summaries := s.summaries[f := Some(reply.value)],
           cache := s.cache[f := Entry(if f in s.fingerprints then s.fingerprints[f] else "", reply.value)])
    case NextLayer =>
      var fs := LayerTasks(p, s.layer);
      s.(layer := s.layer + 1,
         report := Report(s.report.ready + |OutcomesIn(s, fs, Ready)|,
                          s.report.cached + |OutcomesIn(s, fs, Cached)|,
                          s.report.failed + |OutcomesIn(s, fs, Failed)|))
  }

  function Initial(cache: map<Id, Entry>, summaries: map<Id, Option<string>>): State {
    State(0, map[], map[], summaries, map[], cache, Report(0, 0, 0))
  }

  /** The state after a sequence of steps, `None` if one of them was not enabled. */
  function After(p: Plan, s0: State, steps: seq<Step>): Option<State>
    requires ValidPlan(p)
  {
    if steps == [] then Some(s0)
    else
      var before := After(p, s0, steps[..|steps| - 1]);
      var step := steps[|steps| - 1];
      if before.Some? && Enabled(p, before.value, step) then Some(Apply(p, before.value, step)) else None
  }

  // ------------------------------------------------ what every step keeps

  /** Where the task of `f` can be, given the layer the run is in. */
  ghost predicate InStep(p: Plan, s: State, f: Id) {
    && (Layer(p, f) < s.layer ==> TaskOf(s, f).Settled?)
    && (Layer(p, f) > s.layer ==> TaskOf(s, f).Pending?)
  }

  /** The fingerprint of `f` is recorded from its start on, and is the specified one; the
      task was answered from the initial cache exactly if that holds it. */
  ghost predicate Recorded(p: Plan, cache0: map<Id, Entry>, s: State, f: Id)
    requires ValidPlan(p) && f in p.g.nodes
  {
    && (f in s.fingerprints <==> !TaskOf(s, f).Pending?)
    && (f in s.fingerprints ==> s.fingerprints[f] == Fingerprint(p, f))
    && (!TaskOf(s, f).Pending? ==> (TaskOf(s, f) == Settled(Cached) <==> Hit(cache0, f, Fingerprint(p, f))))
  }

  /** The cache entry of `f`. */
  ghost predicate Kept(p: Plan, cache0: map<Id, Entry>, s: State, f: Id)
    requires ValidPlan(p) && f in p.g.nodes
  {
    && (TaskOf(s, f) != Settled(Ready) ==> (f in s.cache <==> f in cache0) && (f in s.cache ==> s.cache[f] == cache0[f]))
    && (TaskOf(s, f) in {Settled(Ready), Settled(Cached)} ==> Hit(s.cache, f, Fingerprint(p, f)))
    && (TaskOf(s, f) in {Settled(Ready), Settled(Cached)} ==>
          f in s.summaries && s.summaries[f] == Some(s.cache[f].summary))
    && (TaskOf(s, f) == Settled(Failed) ==> f in s.summaries && s.summaries[f] == None)
  }

  /** A prompt that was built holds the final summaries of the callees. */
  ghost predicate Prompted(p: Plan, s: State, f: Id)
    requires ValidPlan(p) && f in p.g.nodes
  {
    TaskOf(s, f) in {Prompting, Settled(Ready), Settled(Failed)} ==>
      f in s.prompts && s.prompts[f] == CalleeSummaries(s, OutsideCallees(p, f))
  }

  ghost function Below(p: Plan, l: nat): set<Id>
    requires ValidPlan(p)
  {
    set f | f in p.g.nodes && Layer(p, f) < l
  }

  ghost predicate Counted(p: Plan, s: State)
    requires ValidPlan(p)
  {
    && s.report.ready == |OutcomesIn(s, Below(p, s.layer), Ready)|
    && s.report.cached == |OutcomesIn(s, Below(p, s.layer), Cached)|
    && s.report.failed == |OutcomesIn(s, Below(p, s.layer), Failed)|
  }

  ghost predicate Inv(p: Plan, cache0: map<Id, Entry>, s: State)
    requires ValidPlan(p)
  {
    && s.tasks.Keys <= p.g.nodes && s.layer <= p.schedule.height
    && (forall f {:trigger InStep(p, s, f)} :: f in p.g.nodes ==> InStep(p, s, f))
    && (forall f {:trigger Recorded(p, cache0, s, f)} :: f in p.g.nodes ==> Recorded(p, cache0, s, f))
    && (forall f {:trigger Kept(p, cache0, s, f)} :: f in p.g.nodes ==> Kept(p, cache0, s, f))
    && (forall f {:trigger Prompted(p, s, f)} :: f in p.g.nodes ==> Prompted(p, s, f))
    && |Holders(s)| <= Limit(p)
    && Counted(p, s)
  }

  /** The callees outside the group of a function of the current layer are settled. */
  lemma CalleesSettled(p: Plan, cache0: map<Id, Entry>, s: State, f: Id)
    requires ValidPlan(p) && Inv(p, cache0, s) && f in LayerTasks(p, s.layer) && f in p.g.nodes
    ensures forall c :: c in OutsideCallees(p, f) ==>
              c in p.g.nodes && TaskOf(s, c).Settled? && c in s.fingerprints && s.fingerprints[c] == Fingerprint(p, c)
  {
    hide Fingerprint, Kept, Prompted, Counted, Holders;
    OutsideIsEarlier(p, f);
    forall c | c in OutsideCallees(p, f)
      ensures c in p.g.nodes && TaskOf(s, c).Settled? && c in s.fingerprints && s.fingerprints[c] == Fingerprint(p, c)
    {
      assert InStep(p, s, c) && Recorded(p, cache0, s, c);
    }
  }

  lemma RecordedAreSpecified(p: Plan, cache0: map<Id, Entry>, s: State, f: Id)
    requires ValidPlan(p) && Inv(p, cache0, s) && f in LayerTasks(p, s.layer) && f in p.g.nodes
    ensures RecordedFingerprints(s, OutsideCallees(p, f)) == CalleeFingerprints(p, f)
  {
    hide Fingerprint, Fingerprints, CalleeFingerprints, OutsideCallees, Inv, ValidPlan;
    FingerprintUnfolds(p, f);
    CalleesSettled(p, cache0, s, f);
  }

  // ------------------------------------------------ one step

  ghost predicate SameAt(s: State, s': State, x: Id) {
    && TaskOf(s', x) == TaskOf(s, x)
    && (x in s'.fingerprints <==> x in s.fingerprints) && (x in s.fingerprints ==> s'.fingerprints[x] == s.fingerprints[x])
    && (x in s'.cache <==> x in s.cache) && (x in s.cache ==> s'.cache[x] == s.cache[x])
    && (x in s'.summaries <==> x in s.summaries) && (x in s.summaries ==> s'.summaries[x] == s.summaries[x])
    && (x in s'.prompts <==> x in s.prompts) && (x in s.prompts ==> s'.prompts[x] == s.prompts[x])
  }

  /** A step of the task of `f`. */
  ghost predicate OnlyAt(s: State, s': State, f: Id) {
    && s'.layer == s.layer && s'.report == s.report && s'.tasks.Keys == s.tasks.Keys + {f}
    && forall x :: x != f ==> SameAt(s, s', x)
  }

  lemma CountsUndisturbed(p: Plan, s: State, s': State, f: Id)
    requires ValidPlan(p) && OnlyAt(s, s', f) && Layer(p, f) == s.layer && Counted(p, s)
    ensures Counted(p, s')
  {
    forall o: Outcome ensures OutcomesIn(s', Below(p, s.layer), o) == OutcomesIn(s, Below(p, s.layer), o) {
      forall x | x in Below(p, s.layer) ensures TaskOf(s', x) == TaskOf(s, x) { assert SameAt(s, s', x); }
    }
  }

  /** Summaries a prompt was built from belong to settled callees, so they do not change. */
  lemma PromptUndisturbed(p: Plan, cache0: map<Id, Entry>, s: State, s': State, f: Id, x: Id)
    requires ValidPlan(p) && Inv(p, cache0, s) && OnlyAt(s, s', f)
    requires f in p.g.nodes && Layer(p, f) == s.layer && x in p.g.nodes && x != f
    ensures Prompted(p, s', x)
  {
    hide Fingerprint, ValidPlan;
    assert SameAt(s, s', x) && Prompted(p, s, x) && InStep(p, s, x);
    if !TaskOf(s, x).Pending? {
      SameCalleeSummaries(p, s, s', f, x);
    }
  }

  lemma SameCalleeSummaries(p: Plan, s: State, s': State, f: Id, x: Id)
    requires ValidPlan(p) && x in p.g.nodes
    requires OnlyAt(s, s', f) && Layer(p, x) <= Layer(p, f)
    ensures CalleeSummaries(s', OutsideCallees(p, x)) == CalleeSummaries(s, OutsideCallees(p, x))
  {
    OutsideIsEarlier(p, x);
    var callees := OutsideCallees(p, x);
    forall i | 0 <= i < |callees| ensures CalleeSummaries(s', callees)[i] == CalleeSummaries(s, callees)[i] {
      assert callees[i] in callees;
      assert SameAt(s, s', callees[i]);
    }
  }

  lemma OneTaskMoves(p: Plan, cache0: map<Id, Entry>, s: State, s': State, f: Id)
    requires ValidPlan(p) && Inv(p, cache0, s) && OnlyAt(s, s', f)
    requires f in p.g.nodes && Layer(p, f) == s.layer
    requires GoodAt(p, cache0, s', f) && Prompted(p, s', f)
    requires |Holders(s')| <= Limit(p)
    ensures Inv(p, cache0, s')
  {
    hide Fingerprint, Prompted, Counted, Holders, ValidPlan;
    CountsUndisturbed(p, s, s', f);
    forall x | x in p.g.nodes
      ensures InStep(p, s', x) && Recorded(p, cache0, s', x) && Kept(p, cache0, s', x) && Prompted(p, s', x)
    {
      if x != f {
        assert SameAt(s, s', x);
        assert InStep(p, s, x) && Recorded(p, cache0, s, x) && Kept(p, cache0, s, x);
        PromptUndisturbed(p, cache0, s, s', f, x);
      }
    }
  }

  lemma HoldersAfter(s: State, s': State, f: Id)
    requires OnlyAt(s, s', f)
    ensures Holders(s') == Holders(s) - {f} + if Holding(TaskOf(s', f)) then {f} else {}
  {
    forall x | x != f ensures x in Holders(s') <==> x in Holders(s) { assert SameAt(s, s', x); }
  }

  lemma StartKeeps(p: Plan, cache0: map<Id, Entry>, s: State, f: Id)
    requires ValidPlan(p) && Inv(p, cache0, s) && Enabled(p, s, Start(f))
    ensures Inv(p, cache0, Apply(p, s, Start(f)))
  {
    hide Apply, Started, Inv, Fingerprint, ValidPlan, GoodAt, Prompted;
    TaskInNodes(p, cache0, s, f);
    StartFingerprint(p, cache0, s, f);
    var s' := Started(s, f, Fingerprint(p, f));
    AtTask(p, cache0, s, f);
    StartedShape(p, cache0, s, f);
    StartedPrompted(p, s, f, Fingerprint(p, f));
    HoldersAfter(s, s', f);
    OneTaskMoves(p, cache0, s, s', f);
  }

  lemma TaskInNodes(p: Plan, cache0: map<Id, Entry>, s: State, f: Id)
    requires ValidPlan(p) && Inv(p, cache0, s)
    requires f in LayerTasks(p, s.layer) || (f in s.tasks && !s.tasks[f].Pending? && !s.tasks[f].Settled?)
    ensures f in p.g.nodes && Layer(p, f) == s.layer
  {
    hide Fingerprint, Recorded, Kept, Prompted, Counted, Holders;
    if f in s.tasks { assert InStep(p, s, f); }
  }

  /** `_fingerprint` computes the specified fingerprint: no callee falls back to its id. */
  lemma StartFingerprint(p: Plan, cache0: map<Id, Entry>, s: State, f: Id)
    requires ValidPlan(p) && Inv(p, cache0, s) && Enabled(p, s, Start(f)) && f in p.g.nodes
    ensures Apply(p, s, Start(f)) == Started(s, f, Fingerprint(p, f))
  {
    hide Fingerprint, CalleeFingerprints, Inv, Started, ValidPlan;
    RecordedAreSpecified(p, cache0, s, f);
    FingerprintUnfolds(p, f);
  }

  /** What holds at the task of `f`. */
  ghost predicate GoodAt(p: Plan, cache0: map<Id, Entry>, s: State, f: Id)
    requires ValidPlan(p) && f in p.g.nodes
  {
    Recorded(p, cache0, s, f) && Kept(p, cache0, s, f)
  }

  lemma AtTask(p: Plan, cache0: map<Id, Entry>, s: State, f: Id)
    requires ValidPlan(p) && Inv(p, cache0, s) && f in p.g.nodes
    ensures GoodAt(p, cache0, s, f) && Prompted(p, s, f) && InStep(p, s, f) && |Holders(s)| <= Limit(p)
  {
  }

  lemma StartedShape(p: Plan, cache0: map<Id, Entry>, s: State, f: Id)
    requires ValidPlan(p) && f in p.g.nodes && GoodAt(p, cache0, s, f) && TaskOf(s, f) == Pending
    ensures var s' := Started(s, f, Fingerprint(p, f));
            OnlyAt(s, s', f) && GoodAt(p, cache0, s', f) && !Holding(TaskOf(s', f)) && f !in Holders(s)
  {
    hide Fingerprint, ValidPlan, GoodAt, Started, OnlyAt;
    StartedOnly(s, f, Fingerprint(p, f));
    StartedGood(p, cache0, s, f);
  }

  lemma StartedOnly(s: State, f: Id, fingerprint: string)
    ensures OnlyAt(s, Started(s, f, fingerprint), f) && !Holding(TaskOf(Started(s, f, fingerprint), f))
  {
  }

  lemma StartedGood(p: Plan, cache0: map<Id, Entry>, s: State, f: Id)
    requires ValidPlan(p) && f in p.g.nodes && GoodAt(p, cache0, s, f) && TaskOf(s, f) == Pending
    ensures GoodAt(p, cache0, Started(s, f, Fingerprint(p, f)), f)
  {
    hide Fingerprint, ValidPlan;
  }

  lemma StartedPrompted(p: Plan, s: State, f: Id, fingerprint: string)
    requires ValidPlan(p) && f in p.g.nodes
    ensures Prompted(p, Started(s, f, fingerprint), f)
  {
  }

  lemma AcquireKeeps(p: Plan, cache0: map<Id, Entry>, s: State, f: Id)
    requires ValidPlan(p) && Inv(p, cache0, s) && Enabled(p, s, Acquire(f))
    ensures Inv(p, cache0, Apply(p, s, Acquire(f)))
  {
    hide Inv, Fingerprint, ValidPlan;
    var s' := Apply(p, s, Acquire(f));
    TaskInNodes(p, cache0, s, f);
    AtTask(p, cache0, s, f);
    AcquireShape(p, cache0, s, f);
    HoldersAfter(s, s', f);
    OneTaskMoves(p, cache0, s, s', f);
  }

  lemma AcquireShape(p: Plan, cache0: map<Id, Entry>, s: State, f: Id)
    requires ValidPlan(p) && f in p.g.nodes && GoodAt(p, cache0, s, f) && Enabled(p, s, Acquire(f))
    ensures var s' := Apply(p, s, Acquire(f));
            OnlyAt(s, s', f) && GoodAt(p, cache0, s', f) && Prompted(p, s', f)
  {
    hide Fingerprint, Holders, ValidPlan;
  }

  lemma AskKeeps(p: Plan, cache0: map<Id, Entry>, s: State, f: Id)
    requires ValidPlan(p) && Inv(p, cache0, s) && Enabled(p, s, Ask(f))
    ensures Inv(p, cache0, Apply(p, s, Ask(f)))
  {
    hide Inv, Fingerprint, ValidPlan, Apply, GoodAt, Prompted;
    var s' := Apply(p, s, Ask(f));
    TaskInNodes(p, cache0, s, f);
    AtTask(p, cache0, s, f);
    AskShape(p, cache0, s, f);
    AskPrompted(p, s, f);
    HoldersAfter(s, s', f);
    assert Holders(s') == Holders(s);
    OneTaskMoves(p, cache0, s, s', f);
  }

  lemma AskShape(p: Plan, cache0: map<Id, Entry>, s: State, f: Id)
    requires ValidPlan(p) && f in p.g.nodes && GoodAt(p, cache0, s, f) && Enabled(p, s, Ask(f))
    ensures var s' := Apply(p, s, Ask(f));
            OnlyAt(s, s', f) && GoodAt(p, cache0, s', f) && Holding(TaskOf(s', f)) && f in Holders(s)
  {
    hide Fingerprint, ValidPlan, CalleeSummaries, OutsideCallees;
  }

  lemma AskPrompted(p: Plan, s: State, f: Id)
    requires ValidPlan(p) && f in p.g.nodes && Enabled(p, s, Ask(f))
    ensures Prompted(p, Apply(p, s, Ask(f)), f)
  {
    assert CalleeSummaries(Apply(p, s, Ask(f)), OutsideCallees(p, f)) == CalleeSummaries(s, OutsideCallees(p, f));
  }

  lemma FinishKeeps(p: Plan, cache0: map<Id, Entry>, s: State, f: Id, reply: Option<string>)
    requires ValidPlan(p) && Inv(p, cache0, s) && Enabled(p, s, Finish(f, reply))
    ensures Inv(p, cache0, Apply(p, s, Finish(f, reply)))
  {
    hide Inv, Fingerprint, ValidPlan, Apply, GoodAt, Prompted;
    var s' := Apply(p, s, Finish(f, reply));
    TaskInNodes(p, cache0, s, f);
    AtTask(p, cache0, s, f);
    FinishShape(p, cache0, s, f, reply);
    FinishPrompted(p, cache0, s, f, reply);
    HoldersAfter(s, s', f);
    OneTaskMoves(p, cache0, s, s', f);
  }

  lemma FinishShape(p: Plan, cache0: map<Id, Entry>, s: State, f: Id, reply: Option<string>)
    requires ValidPlan(p) && f in p.g.nodes && GoodAt(p, cache0, s, f) && Enabled(p, s, Finish(f, reply))
    ensures var s' := Apply(p, s, Finish(f, reply));
            OnlyAt(s, s', f) && GoodAt(p, cache0, s', f) && !Holding(TaskOf(s', f)) && f in Holders(s)
  {
    hide Fingerprint, ValidPlan, GoodAt, Apply, OnlyAt;
    FinishOnly(p, s, f, reply);
    FinishGood(p, cache0, s, f, reply);
  }

  lemma FinishOnly(p: Plan, s: State, f: Id, reply: Option<string>)
    requires ValidPlan(p) && Enabled(p, s, Finish(f, reply))
    ensures var s' := Apply(p, s, Finish(f, reply)); OnlyAt(s, s', f) && !Holding(TaskOf(s', f))
  {
    hide Fingerprint, ValidPlan;
  }

  lemma FinishGood(p: Plan, cache0: map<Id, Entry>, s: State, f: Id, reply: Option<string>)
    requires ValidPlan(p) && f in p.g.nodes && GoodAt(p, cache0, s, f) && Enabled(p, s, Finish(f, reply))
    ensures GoodAt(p, cache0, Apply(p, s, Finish(f, reply)), f)
  {
    hide Fingerprint, ValidPlan;
  }

  lemma FinishPrompted(p: Plan, cache0: map<Id, Entry>, s: State, f: Id, reply: Option<string>)
    requires ValidPlan(p) && Inv(p, cache0, s) && f in p.g.nodes && Enabled(p, s, Finish(f, reply))
    requires OnlyAt(s, Apply(p, s, Finish(f, reply)), f)
    ensures Prompted(p, Apply(p, s, Finish(f, reply)), f)
  {
    hide Fingerprint, Counted, ValidPlan, Recorded, Kept;
    assert Prompted(p, s, f);
    SameCalleeSummaries(p, s, Apply(p, s, Finish(f, reply)), f, f);
  }

  /** Only the layer and the report move on. */
  ghost predicate SameTasks(s: State, s': State) {
    && s'.tasks == s.tasks && s'.fingerprints == s.fingerprints && s'.summaries == s.summaries
    && s'.prompts == s.prompts && s'.cache == s.cache
  }

  lemma NextLayerMoves(p: Plan, s: State)
    requires ValidPlan(p) && Enabled(p, s, NextLayer)
    ensures SameTasks(s, Apply(p, s, NextLayer)) && Apply(p, s, NextLayer).layer == s.layer + 1
  {
    hide ValidPlan, LayerTasks, OutcomesIn, OutsideCallees, CalleeSummaries, PayloadOf, RecordedFingerprints, Started;
  }

  lemma GoodAsBefore(p: Plan, cache0: map<Id, Entry>, s: State, s': State, f: Id)
    requires ValidPlan(p) && f in p.g.nodes && SameTasks(s, s') && GoodAt(p, cache0, s, f) && Prompted(p, s, f)
    ensures GoodAt(p, cache0, s', f) && Prompted(p, s', f)
  {
    hide Fingerprint, ValidPlan, OutsideCallees;
    forall callees: seq<Id> ensures CalleeSummaries(s', callees) == CalleeSummaries(s, callees) {
    }
  }

  lemma InStepAfter(p: Plan, s: State, s': State, f: Id)
    requires f in p.g.nodes && InStep(p, s, f) && SameTasks(s, s') && s'.layer == s.layer + 1
    requires f in LayerTasks(p, s.layer) ==> TaskOf(s, f).Settled?
    requires Layer(p, f) == s.layer ==> f in LayerTasks(p, s.layer)
    ensures InStep(p, s', f)
  {
    hide LayerTasks;
  }

  lemma NextLayerAt(p: Plan, cache0: map<Id, Entry>, s: State, f: Id)
    requires ValidPlan(p) && f in p.g.nodes && Enabled(p, s, NextLayer)
    requires GoodAt(p, cache0, s, f) && Prompted(p, s, f) && InStep(p, s, f)
    ensures var s' := Apply(p, s, NextLayer);
            GoodAt(p, cache0, s', f) && Prompted(p, s', f) && InStep(p, s', f)
  {
    hide Fingerprint, GoodAt, Prompted, InStep, Apply, SameTasks;
    NextLayerMoves(p, s);
    GoodAsBefore(p, cache0, s, Apply(p, s, NextLayer), f);
    InStepAfter(p, s, Apply(p, s, NextLayer), f);
  }

  lemma NextLayerKeeps(p: Plan, cache0: map<Id, Entry>, s: State)
    requires ValidPlan(p) && Inv(p, cache0, s) && Enabled(p, s, NextLayer)
    ensures Inv(p, cache0, Apply(p, s, NextLayer))
  {
    hide Fingerprint, Recorded, Kept, Prompted, InStep, OutcomesIn, ValidPlan;
    var s' := Apply(p, s, NextLayer);
    forall f | f in p.g.nodes
      ensures InStep(p, s', f) && GoodAt(p, cache0, s', f) && Prompted(p, s', f)
    {
      AtTask(p, cache0, s, f);
      NextLayerAt(p, cache0, s, f);
    }
    NextLayerCounts(p, s, Ready);
    NextLayerCounts(p, s, Cached);
    NextLayerCounts(p, s, Failed);
    assert Holders(s') == Holders(s);
  }

  lemma NextLayerCounts(p: Plan, s: State, o: Outcome)
    requires ValidPlan(p) && Enabled(p, s, NextLayer)
    ensures |OutcomesIn(Apply(p, s, NextLayer), Below(p, s.layer + 1), o)| ==
            |OutcomesIn(s, Below(p, s.layer), o)| + |OutcomesIn(s, LayerTasks(p, s.layer), o)|
  {
    var s' := Apply(p, s, NextLayer);
    assert Below(p, s.layer + 1) == Below(p, s.layer) + LayerTasks(p, s.layer);
    OutcomesOfUnion(s, s', Below(p, s.layer), LayerTasks(p, s.layer), o);
  }

  lemma OutcomesOfUnion(s: State, s': State, a: set<Id>, b: set<Id>, o: Outcome)
    requires s'.tasks == s.tasks && a !! b
    ensures |OutcomesIn(s', a + b, o)| == |OutcomesIn(s, a, o)| + |OutcomesIn(s, b, o)|
  {
    assert OutcomesIn(s', a + b, o) == OutcomesIn(s, a, o) + OutcomesIn(s, b, o);
  }

  lemma StepKeeps(p: Plan, cache0: map<Id, Entry>, s: State, step: Step)
    requires ValidPlan(p) && Inv(p, cache0, s) && Enabled(p, s, step)
    ensures Inv(p, cache0, Apply(p, s, step))
  {
    hide Inv, Apply, Enabled, ValidPlan;
    match step
    case Start(f) => StartKeeps(p, cache0, s, f);
    case Acquire(f) => AcquireKeeps(p, cache0, s, f);
    case Ask(f) => AskKeeps(p, cache0, s, f);
    case Finish(f, reply) => FinishKeeps(p, cache0, s, f, reply);
    case NextLayer => NextLayerKeeps(p, cache0, s);
  }

  lemma InitialInv(p: Plan, cache0: map<Id, Entry>, summaries: map<Id, Option<string>>)
    requires ValidPlan(p)
    ensures Inv(p, cache0, Initial(cache0, summaries))
  {
    hide Fingerprint;
    var s := Initial(cache0, summaries);
    forall f | f in p.g.nodes
      ensures InStep(p, s, f) && Recorded(p, cache0, s, f) && Kept(p, cache0, s, f) && Prompted(p, s, f)
    {
    }
    assert Below(p, 0) == {};
    assert Holders(s) == {};
  }

  /** Over every interleaving, every reachable state keeps the invariant. */
  lemma {:induction false} RunKeeps(p: Plan, cache0: map<Id, Entry>, summaries: map<Id, Option<string>>, steps: seq<Step>)
    requires ValidPlan(p)
    requires After(p, Initial(cache0, summaries), steps).Some?
    ensures Inv(p, cache0, After(p, Initial(cache0, summaries), steps).value)
  {
    hide Inv, Apply, Enabled, ValidPlan, Initial;
    if steps == [] {
      InitialInv(p, cache0, summaries);
    } else {
      RunKeeps(p, cache0, summaries, steps[..|steps| - 1]);
      var before := After(p, Initial(cache0, summaries), steps[..|steps| - 1]).value;
      StepKeeps(p, cache0, before, steps[|steps| - 1]);
    }
  }
}
