/** Which summary a run stores: the model's one reply, and nothing else. */
module SummaryReplies {
  import opened Wrappers
  import opened CallGraph
  import opened SummaryPlan
  import opened SummaryRun

  function ReplyIn(step: Step, f: Id): seq<Option<string>> {
    if step.Finish? && step.f == f then [step.reply] else []
  }

  /** What the model answered for `f`, in order; `None` is a failed call. */
  function Replies(steps: seq<Step>, f: Id): seq<Option<string>> {
    if steps == [] then [] else Replies(steps[..|steps| - 1], f) + ReplyIn(steps[|steps| - 1], f)
  }

  ghost predicate Stores(s: State, f: Id, summary: string, entry: Entry) {
    f in s.summaries && s.summaries[f] == Some(summary) && f in s.cache && s.cache[f] == entry
  }

  ghost predicate OldEntry(cache0: map<Id, Entry>, s: State, f: Id) {
    (f in s.cache <==> f in cache0) && (f in cache0 ==> s.cache[f] == cache0[f])
  }

  /** What is stored for `f` after the replies `replies`. */
  ghost predicate Answered(p: Plan, cache0: map<Id, Entry>, s: State, f: Id, replies: seq<Option<string>>)
    requires ValidPlan(p) && f in p.g.nodes
  {
    match TaskOf(s, f)
    case Settled(Ready) =>
      |replies| == 1 && replies[0].Some? && replies[0].value != ""
      && Stores(s, f, replies[0].value, Entry(Fingerprint(p, f), replies[0].value))
    case Settled(Failed) =>
      |replies| == 1 && (replies[0].None? || replies[0].value == "")
      && f in s.summaries && s.summaries[f] == None && OldEntry(cache0, s, f)
    case Settled(Cached) =>
      replies == [] && f in cache0 && cache0[f].fingerprint == Fingerprint(p, f) && cache0[f].summary != ""
      && Stores(s, f, cache0[f].summary, cache0[f])
    case _ => replies == [] && OldEntry(cache0, s, f)
  }

  lemma OtherTask(p: Plan, cache0: map<Id, Entry>, s: State, s': State, f: Id, g: Id, replies: seq<Option<string>>)
    requires ValidPlan(p) && f in p.g.nodes && f != g && OnlyAt(s, s', g) && Answered(p, cache0, s, f, replies)
    ensures Answered(p, cache0, s', f, replies)
  {
    hide Fingerprint, ValidPlan;
    assert SameAt(s, s', f);
  }

  lemma OwnStart(p: Plan, cache0: map<Id, Entry>, s: State, f: Id, replies: seq<Option<string>>)
    requires ValidPlan(p) && f in p.g.nodes && TaskOf(s, f) == Pending && Answered(p, cache0, s, f, replies)
    ensures Answered(p, cache0, Started(s, f, Fingerprint(p, f)), f, replies)
  {
    hide Fingerprint, ValidPlan;
  }

  lemma OwnMove(p: Plan, cache0: map<Id, Entry>, s: State, step: Step, replies: seq<Option<string>>)
    requires ValidPlan(p) && Enabled(p, s, step) && (step.Acquire? || step.Ask?) && step.f in p.g.nodes
    requires Answered(p, cache0, s, step.f, replies)
    ensures Answered(p, cache0, Apply(p, s, step), step.f, replies)
  {
    hide Fingerprint, ValidPlan, CalleeSummaries, OutsideCallees, Holders;
  }

  lemma OwnFinish(p: Plan, cache0: map<Id, Entry>, s: State, f: Id, reply: Option<string>, replies: seq<Option<string>>)
    requires ValidPlan(p) && f in p.g.nodes && Enabled(p, s, Finish(f, reply))
    requires Recorded(p, cache0, s, f) && Answered(p, cache0, s, f, replies)
    ensures Answered(p, cache0, Apply(p, s, Finish(f, reply)), f, replies + [reply])
  {
    hide Fingerprint, ValidPlan;
  }

  lemma Moves(p: Plan, cache0: map<Id, Entry>, s: State, step: Step)
    requires ValidPlan(p) && Inv(p, cache0, s) && Enabled(p, s, step) && !step.NextLayer?
    ensures step.f in p.g.nodes && OnlyAt(s, Apply(p, s, step), step.f)
    ensures step.Start? ==> Apply(p, s, step) == Started(s, step.f, Fingerprint(p, step.f))
  {
    hide Inv, Apply, Fingerprint, ValidPlan, GoodAt, Prompted, OnlyAt, Started;
    var f := step.f;
    TaskInNodes(p, cache0, s, f);
    AtTask(p, cache0, s, f);
    match step
    case Start(_) =>
      StartFingerprint(p, cache0, s, f);
      StartedShape(p, cache0, s, f);
    case Acquire(_) => AcquireShape(p, cache0, s, f);
    case Ask(_) => AskShape(p, cache0, s, f);
    case Finish(_, reply) => FinishShape(p, cache0, s, f, reply);
  }

  lemma StepAnswers(p: Plan, cache0: map<Id, Entry>, s: State, step: Step, f: Id, replies: seq<Option<string>>)
    requires ValidPlan(p) && Inv(p, cache0, s) && Enabled(p, s, step) && f in p.g.nodes
    requires Answered(p, cache0, s, f, replies)
    ensures Answered(p, cache0, Apply(p, s, step), f, replies + ReplyIn(step, f))
  {
    hide Inv, Apply, Fingerprint, ValidPlan, Answered, OnlyAt, Started, GoodAt;
    assert replies + [] == replies;
    if step.NextLayer? {
      NextLayerMoves(p, s);
      SameAnswer(p, cache0, s, Apply(p, s, step), f, replies);
    } else {
      Moves(p, cache0, s, step);
      AtTask(p, cache0, s, f);
      if step.f != f {
        OtherTask(p, cache0, s, Apply(p, s, step), f, step.f, replies);
      } else if step.Start? {
        OwnStart(p, cache0, s, f, replies);
      } else if step.Finish? {
        assert Recorded(p, cache0, s, f) by { RecordedAt(p, cache0, s, f); }
        OwnFinish(p, cache0, s, f, step.reply, replies);
      } else {
        OwnMove(p, cache0, s, step, replies);
      }
    }
  }

  lemma RecordedAt(p: Plan, cache0: map<Id, Entry>, s: State, f: Id)
    requires ValidPlan(p) && f in p.g.nodes && GoodAt(p, cache0, s, f)
    ensures Recorded(p, cache0, s, f)
  {
  }

  lemma SameAnswer(p: Plan, cache0: map<Id, Entry>, s: State, s': State, f: Id, replies: seq<Option<string>>)
    requires ValidPlan(p) && f in p.g.nodes && SameTasks(s, s') && Answered(p, cache0, s, f, replies)
    ensures Answered(p, cache0, s', f, replies)
  {
    hide Fingerprint, ValidPlan;
  }

  /** In every interleaving a function is `ready` exactly with the one reply that the model gave for it: that is its summary
      and, under its fingerprint, its cache entry. It has `failed` exactly if that reply was a failure or empty; then it has
      no summary and the old cache entry stands. A cache hit asks nothing and has the cached summary. */
  lemma {:induction false} OutcomeIsReply(p: Plan, cache0: map<Id, Entry>, summaries: map<Id, Option<string>>,
                                          steps: seq<Step>, f: Id)
    requires ValidPlan(p) && f in p.g.nodes && After(p, Initial(cache0, summaries), steps).Some?
    ensures Answered(p, cache0, After(p, Initial(cache0, summaries), steps).value, f, Replies(steps, f))
  {
    hide Inv, Apply, Enabled, ValidPlan, Fingerprint;
    if steps != [] {
      hide Initial, Answered;
      var init := steps[..|steps| - 1];
      OutcomeIsReply(p, cache0, summaries, init, f);
      RunKeeps(p, cache0, summaries, init);
      var before := After(p, Initial(cache0, summaries), init).value;
      StepAnswers(p, cache0, before, steps[|steps| - 1], f, Replies(init, f));
    }
  }
}
