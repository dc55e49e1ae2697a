/** Whole runs: what every interleaving agrees on, and how long it can take. */
module SummaryTheorems {
  import opened Wrappers
  import opened Orders
  import opened CallGraph
  import opened SummaryPlan
  import opened SummaryRun

  ghost predicate Reachable(p: Plan, cache0: map<Id, Entry>, s: State)
    requires ValidPlan(p)
  {
    exists summaries, steps :: After(p, Initial(cache0, summaries), steps) == Some(s)
  }

  lemma ReachableKeeps(p: Plan, cache0: map<Id, Entry>, s: State)
    requires ValidPlan(p) && Reachable(p, cache0, s)
    ensures Inv(p, cache0, s)
  {
    hide Inv;
    var summaries, steps :| After(p, Initial(cache0, summaries), steps) == Some(s);
    RunKeeps(p, cache0, summaries, steps);
  }

  /** Whenever a task starts, in any interleaving, each callee outside its group is settled
      and recorded; so the default of `fingerprints.get(child, child)` is never used and the
      fingerprint is the specified one. */
  lemma StartSeesSettledCallees(p: Plan, cache0: map<Id, Entry>, s: State, f: Id)
    requires ValidPlan(p) && Reachable(p, cache0, s) && Enabled(p, s, Start(f))
    ensures f in p.g.nodes
    ensures forall c :: c in OutsideCallees(p, f) ==> TaskOf(s, c).Settled? && c in s.fingerprints
    ensures f in Apply(p, s, Start(f)).fingerprints
    ensures Apply(p, s, Start(f)).fingerprints[f] == Fingerprint(p, f)
  {
    hide Inv, Fingerprint;
    ReachableKeeps(p, cache0, s);
    TaskInNodes(p, cache0, s, f);
    CalleesSettled(p, cache0, s, f);
    StartFingerprint(p, cache0, s, f);
  }

  /** The prompt of `f` is built from settled callees, and in every later state of the run it
      still shows their summaries. */
  lemma PromptShowsFinalSummaries(p: Plan, cache0: map<Id, Entry>, s: State, f: Id)
    requires ValidPlan(p) && Reachable(p, cache0, s) && f in p.g.nodes
    requires TaskOf(s, f) in {Prompting, Settled(Ready), Settled(Failed)}
    ensures f in s.prompts && s.prompts[f] == CalleeSummaries(s, OutsideCallees(p, f))
    ensures forall c :: c in OutsideCallees(p, f) ==> TaskOf(s, c).Settled? && c in s.summaries
    ensures |s.prompts[f]| == |OutsideCallees(p, f)|
    ensures forall i :: 0 <= i < |s.prompts[f]| ==> s.prompts[f][i] == s.summaries[OutsideCallees(p, f)[i]]
  {
    hide Fingerprint, Inv, GoodAt, CalleeSummaries;
    ReachableKeeps(p, cache0, s);
    AtTask(p, cache0, s, f);
    OutsideIsEarlier(p, f);
    forall c | c in OutsideCallees(p, f) ensures TaskOf(s, c).Settled? && c in s.summaries {
      AtTask(p, cache0, s, c);
      SettledHasSummary(p, cache0, s, c);
    }
    SummariesOf(s, OutsideCallees(p, f));
  }

  lemma SettledHasSummary(p: Plan, cache0: map<Id, Entry>, s: State, c: Id)
    requires ValidPlan(p) && c in p.g.nodes && GoodAt(p, cache0, s, c) && TaskOf(s, c).Settled?
    ensures c in s.summaries
  {
    hide Fingerprint;
    match TaskOf(s, c).outcome
    case Ready =>
    case Cached =>
    case Failed =>
  }

  lemma SummariesOf(s: State, callees: seq<Id>)
    requires forall c :: c in callees ==> c in s.summaries
    ensures forall i :: 0 <= i < |callees| ==> callees[i] in s.summaries && CalleeSummaries(s, callees)[i] == s.summaries[callees[i]]
  {
  }

  /** At most `max(1, concurrency)` tasks hold the semaphore. */
  lemma SemaphoreBound(p: Plan, cache0: map<Id, Entry>, s: State)
    requires ValidPlan(p) && Reachable(p, cache0, s)
    ensures |Holders(s)| <= (if p.concurrency < 1 then 1 else p.concurrency)
  {
    ReachableKeeps(p, cache0, s);
  }

  ghost predicate Finished(p: Plan, s: State) {
    s.layer == p.schedule.height
  }

  lemma FinishedSettled(p: Plan, cache0: map<Id, Entry>, s: State, f: Id)
    requires ValidPlan(p) && Inv(p, cache0, s) && Finished(p, s) && f in p.g.nodes
    ensures TaskOf(s, f).Settled? && f in s.fingerprints && s.fingerprints[f] == Fingerprint(p, f)
    ensures TaskOf(s, f) == Settled(Cached) <==> Hit(cache0, f, Fingerprint(p, f))
  {
    hide Fingerprint, Inv;
    AtTask(p, cache0, s, f);
    assert GoodTask(p.g, p.schedule, f);
  }

  lemma OutcomesPartition(p: Plan, s: State)
    requires forall f :: f in p.g.nodes ==> TaskOf(s, f).Settled?
    ensures |OutcomesIn(s, p.g.nodes, Ready)| + |OutcomesIn(s, p.g.nodes, Cached)| + |OutcomesIn(s, p.g.nodes, Failed)|
            == |p.g.nodes|
  {
    var ready, cached, failed :=
      OutcomesIn(s, p.g.nodes, Ready), OutcomesIn(s, p.g.nodes, Cached), OutcomesIn(s, p.g.nodes, Failed);
    assert ready !! cached && (ready + cached) !! failed;
    forall f | f in p.g.nodes ensures f in ready + cached + failed {
      match TaskOf(s, f).outcome
      case Ready => assert f in ready;
      case Cached => assert f in cached;
      case Failed => assert f in failed;
    }
    assert ready + cached + failed == p.g.nodes;
  }

  lemma AllBelow(p: Plan)
    requires ValidPlan(p)
    ensures Below(p, p.schedule.height) == p.g.nodes
  {
    forall f | f in p.g.nodes ensures Layer(p, f) < p.schedule.height { assert GoodTask(p.g, p.schedule, f); }
  }

  /** The report of a finished run adds up to the number of functions. */
  lemma ReportAddsUp(p: Plan, cache0: map<Id, Entry>, s: State)
    requires ValidPlan(p) && Reachable(p, cache0, s) && Finished(p, s)
    ensures s.report.ready + s.report.cached + s.report.failed == |p.g.nodes|
  {
    hide Reachable, ValidPlan, OutcomesIn, Below, Recorded, Kept, Prompted;
    ReachableKeeps(p, cache0, s);
    forall f | f in p.g.nodes ensures TaskOf(s, f).Settled? { FinishedSettled(p, cache0, s, f); }
    OutcomesPartition(p, s);
    AllBelow(p);
  }

  /** Fingerprints and cache hits do not depend on the interleaving or on the model's replies. */
  lemma ScheduleIndependent(p: Plan, cache0: map<Id, Entry>, s: State, s': State, f: Id)
    requires ValidPlan(p) && Reachable(p, cache0, s) && Reachable(p, cache0, s')
    requires Finished(p, s) && Finished(p, s') && f in p.g.nodes
    ensures f in s.fingerprints && f in s'.fingerprints && s.fingerprints[f] == s'.fingerprints[f]
    ensures TaskOf(s, f) == Settled(Cached) <==> TaskOf(s', f) == Settled(Cached)
  {
    hide Fingerprint, Inv;
    ReachableKeeps(p, cache0, s);
    ReachableKeeps(p, cache0, s');
    FinishedSettled(p, cache0, s, f);
    FinishedSettled(p, cache0, s', f);
  }

  // ------------------------------------------------ no deadlock, bounded length

  /** A run that is not finished can always take a step. */
  lemma NoDeadlock(p: Plan, cache0: map<Id, Entry>, s: State)
    requires ValidPlan(p) && Reachable(p, cache0, s) && !Finished(p, s)
    ensures exists step :: Enabled(p, s, step)
  {
    hide Reachable, ValidPlan, Recorded, Kept, Prompted, Counted;
    ReachableKeeps(p, cache0, s);
    EnabledSomewhere(p, s);
  }

  lemma EnabledSomewhere(p: Plan, s: State)
    requires s.layer < p.schedule.height
    ensures exists step :: Enabled(p, s, step)
  {
    if f :| f in LayerTasks(p, s.layer) && TaskOf(s, f).Pending? {
      assert Enabled(p, s, Start(f));
    } else if f :| f in Holders(s) {
      if s.tasks[f].Asking? {
        assert Enabled(p, s, Ask(f));
      } else {
        assert Enabled(p, s, Finish(f, None));
      }
    } else if f :| f in s.tasks && s.tasks[f].Waiting? {
      assert Holders(s) == {};
      assert Enabled(p, s, Acquire(f));
    } else {
      forall f | f in LayerTasks(p, s.layer) ensures TaskOf(s, f).Settled? {
        assert !TaskOf(s, f).Pending? && f !in Holders(s);
      }
      assert Enabled(p, s, NextLayer);
    }
  }

  function Stage(t: Task): nat {
    match t
    case Pending => 0
    case Waiting => 1
    case Asking => 2
    case Prompting => 3
    case Settled(_) => 4
  }

  ghost function Past(p: Plan, s: State, n: nat): set<Id> {
    set f | f in p.g.nodes && Stage(TaskOf(s, f)) >= n
  }

  /** How far a run has come. */
  ghost function Progress(p: Plan, s: State): nat {
    s.layer + |Past(p, s, 1)| + |Past(p, s, 2)| + |Past(p, s, 3)| + |Past(p, s, 4)|
  }

  lemma StepProgresses(p: Plan, cache0: map<Id, Entry>, s: State, step: Step)
    requires ValidPlan(p) && Inv(p, cache0, s) && Enabled(p, s, step)
    ensures Progress(p, s) < Progress(p, Apply(p, s, step))
  {
    hide Fingerprint, ValidPlan, Kept, Recorded, Prompted, Counted;
    var s' := Apply(p, s, step);
    if step.NextLayer? {
      forall n: nat ensures Past(p, s', n) == Past(p, s, n) {}
    } else {
      var f := step.f;
      TaskInNodes(p, cache0, s, f);
      StageRises(p, s, step, f);
      TaskMoves(p, s, s', f);
    }
  }

  lemma StageRises(p: Plan, s: State, step: Step, f: Id)
    requires ValidPlan(p) && Enabled(p, s, step) && !step.NextLayer? && step.f == f
    ensures var s' := Apply(p, s, step);
            && s'.layer == s.layer && Stage(TaskOf(s, f)) < Stage(TaskOf(s', f))
            && forall x :: x != f ==> TaskOf(s', x) == TaskOf(s, x)
  {
    hide ValidPlan;
    match step
    case Start(_) => StartRises(p, s, f);
    case Acquire(_) =>
    case Ask(_) =>
    case Finish(_, _) =>
  }

  lemma StartRises(p: Plan, s: State, f: Id)
    requires ValidPlan(p) && Enabled(p, s, Start(f))
    ensures var s' := Apply(p, s, Start(f));
            && s'.layer == s.layer && Stage(TaskOf(s, f)) < Stage(TaskOf(s', f))
            && forall x :: x != f ==> TaskOf(s', x) == TaskOf(s, x)
  {
    hide ValidPlan, PayloadOf, RecordedFingerprints, OutsideCallees;
  }

  lemma TaskMoves(p: Plan, s: State, s': State, f: Id)
    requires f in p.g.nodes && s'.layer == s.layer && Stage(TaskOf(s, f)) < Stage(TaskOf(s', f))
    requires forall x :: x != f ==> TaskOf(s', x) == TaskOf(s, x)
    ensures Progress(p, s) < Progress(p, s')
  {
    forall n: nat ensures |Past(p, s, n)| <= |Past(p, s', n)| {
      SubsetCount(Past(p, s, n), Past(p, s', n));
    }
    var n := Stage(TaskOf(s', f));
    assert f in Past(p, s', n) && f !in Past(p, s, n);
    SubsetCount(Past(p, s, n), Past(p, s', n));
  }

  lemma {:induction false} RunProgresses(p: Plan, cache0: map<Id, Entry>, summaries: map<Id, Option<string>>, steps: seq<Step>)
    requires ValidPlan(p) && After(p, Initial(cache0, summaries), steps).Some?
    ensures |steps| <= Progress(p, After(p, Initial(cache0, summaries), steps).value)
  {
    hide Inv, Progress, ValidPlan, Initial, Apply, Enabled;
    if steps != [] {
      var init := steps[..|steps| - 1];
      RunProgresses(p, cache0, summaries, init);
      RunKeeps(p, cache0, summaries, init);
      StepProgresses(p, cache0, After(p, Initial(cache0, summaries), init).value, steps[|steps| - 1]);
    }
  }

  /** No interleaving takes more than four steps per function and one per layer. */
  lemma RunsAreShort(p: Plan, cache0: map<Id, Entry>, summaries: map<Id, Option<string>>, steps: seq<Step>)
    requires ValidPlan(p) && After(p, Initial(cache0, summaries), steps).Some?
    ensures |steps| <= 4 * |p.g.nodes| + p.schedule.height
  {
    hide ValidPlan, After, Initial;
    RunProgresses(p, cache0, summaries, steps);
    RunKeeps(p, cache0, summaries, steps);
    var s := After(p, Initial(cache0, summaries), steps).value;
    forall n: nat ensures |Past(p, s, n)| <= |p.g.nodes| {
      SubsetCount(Past(p, s, n), p.g.nodes);
    }
  }
}
