/** The text about the callees in a prompt, and what its cut leaves of it. */
module SummaryPrompt {
  import opened Wrappers
  import opened CallGraph
  import opened SummaryPlan
  import opened SummaryRun
  import opened SummaryTheorems

  /** What stands for a missing summary, and for no callees at all. */
  datatype Texts = Texts(unavailable: string, leaf: string)

  function CalleeLine(p: Plan, texts: Texts, c: Id, summary: Option<string>): (line: string)
    ensures line != ""
  {
    "- " + (if c in p.functions then p.functions[c].name else "") + ": "
    + if summary.None? || summary.value == "" then texts.unavailable else summary.value
  }

  function CalleeLines(p: Plan, texts: Texts, callees: seq<Id>, summaries: seq<Option<string>>): (lines: seq<string>)
    requires |summaries| == |callees|
    ensures |lines| == |callees|
  {
    seq(|callees|, i requires 0 <= i < |callees| => CalleeLine(p, texts, callees[i], summaries[i]))
  }

  /** `"\n".join(lines)` */
  function JoinLines(lines: seq<string>): string {
    if lines == [] then ""
    else if |lines| == 1 then lines[0]
    else JoinLines(lines[..|lines| - 1]) + "\n" + lines[|lines| - 1]
  }

  /** `len(text[:limit])` */
  function CutLength(length: nat, limit: int): (n: nat)
    ensures n <= length
  {
    if 0 <= limit then (if limit < length then limit else length)
    else if length + limit < 0 then 0 else length + limit
  }

  function Cut(text: string, limit: int): string {
    text[..CutLength(|text|, limit)]
  }

  function FullText(p: Plan, texts: Texts, callees: seq<Id>, summaries: seq<Option<string>>): string
    requires |summaries| == |callees|
  {
    if callees == [] then texts.leaf else JoinLines(CalleeLines(p, texts, callees, summaries))
  }

  /** The loop over the sorted callees, and the cut. */
  method DependencyText(p: Plan, texts: Texts, callees: seq<Id>, summaries: seq<Option<string>>, limit: int) returns (text: string)
    requires |summaries| == |callees|
    ensures text == Cut(FullText(p, texts, callees, summaries), limit)
  {
    ghost var lines := CalleeLines(p, texts, callees, summaries);
    text := "";
    for i := 0 to |callees|
      invariant text == JoinLines(lines[..i])
    {
      assert lines[..i + 1][..i] == lines[..i];
      text := (if i == 0 then "" else text + "\n") + CalleeLine(p, texts, callees[i], summaries[i]);
    }
    assert lines[..|callees|] == lines;
    if callees == [] { text := texts.leaf; }
    text := text[..CutLength(|text|, limit)];
  }

  // ------------------------------------------------ where the lines stand in the text

  /** Line `i` is at `starts[i]`, and the next one behind the line break that follows. */
  ghost predicate LineAt(lines: seq<string>, starts: seq<nat>, text: string, i: int)
    requires |starts| == |lines| && 0 <= i < |lines|
  {
    var end := starts[i] + |lines[i]|;
    && end <= |text| && text[starts[i]..end] == lines[i]
    && (if i == |lines| - 1 then end == |text| else end < |text| && text[end] == '\n' && starts[i + 1] == end + 1)
  }

  /** The text has the lines at `starts`, with line breaks between them, and nothing else. */
  ghost predicate StandsAt(lines: seq<string>, starts: seq<nat>, text: string) {
    && |starts| == |lines|
    && (if lines == [] then text == "" else starts[0] == 0)
    && forall i :: 0 <= i < |lines| ==> LineAt(lines, starts, text, i)
  }

  lemma {:induction false} JoinedStands(lines: seq<string>) returns (starts: seq<nat>)
    ensures StandsAt(lines, starts, JoinLines(lines))
  {
    hide StandsAt;
    if |lines| <= 1 {
      starts := if lines == [] then [] else [0];
      FewStand(lines, starts);
    } else {
      var init, last := lines[..|lines| - 1], lines[|lines| - 1];
      var before := JoinedStands(init);
      starts := before + [|JoinLines(init)| + 1];
      OneMoreStands(init, before, JoinLines(init), last);
      assert lines == init + [last];
    }
  }

  lemma FewStand(lines: seq<string>, starts: seq<nat>)
    requires |lines| <= 1 && starts == if lines == [] then [] else [0]
    ensures StandsAt(lines, starts, JoinLines(lines))
  {
  }

  lemma OneMoreStands(lines: seq<string>, starts: seq<nat>, text: string, last: string)
    requires lines != [] && StandsAt(lines, starts, text)
    ensures StandsAt(lines + [last], starts + [|text| + 1], text + "\n" + last)
  {
    hide LineAt;
    var all, at, more := lines + [last], starts + [|text| + 1], text + "\n" + last;
    forall i | 0 <= i < |all| ensures LineAt(all, at, more, i) {
      if i < |lines| {
        assert LineAt(lines, starts, text, i);
        LineStays(lines, starts, text, last, i);
      } else {
        LastLine(lines, starts, text, last);
      }
    }
  }

  lemma LineStays(lines: seq<string>, starts: seq<nat>, text: string, last: string, i: nat)
    requires |starts| == |lines| && i < |lines| && LineAt(lines, starts, text, i)
    ensures LineAt(lines + [last], starts + [|text| + 1], text + "\n" + last, i)
  {
    var more, end := text + "\n" + last, starts[i] + |lines[i]|;
    assert more[..|text|] == text && more[|text|] == '\n';
    assert more[starts[i]..end] == more[..|text|][starts[i]..end];
    assert end < |text| ==> more[end] == text[end];
  }

  lemma LastLine(lines: seq<string>, starts: seq<nat>, text: string, last: string)
    requires |starts| == |lines|
    ensures LineAt(lines + [last], starts + [|text| + 1], text + "\n" + last, |lines|)
  {
    var more := text + "\n" + last;
    assert more[|text| + 1..] == last && more[|text| + 1..|more|] == last;
  }

  // ------------------------------------------------ the text that is sent

  /** The line of a callee: its name, and its summary or what stands for a missing one. */
  ghost predicate LineOf(p: Plan, texts: Texts, c: Id, summary: Option<string>, line: string) {
    c in p.functions ==>
      line == "- " + p.functions[c].name + ": " + if summary.Some? && summary.value != "" then summary.value else texts.unavailable
  }

  /** The lines of the callees of `f` with the summaries that the run leaves them. */
  ghost predicate FinalLines(p: Plan, texts: Texts, s: State, callees: seq<Id>, lines: seq<string>) {
    && |lines| == |callees|
    && forall i :: 0 <= i < |callees| ==> callees[i] in s.summaries && LineOf(p, texts, callees[i], s.summaries[callees[i]], lines[i])
  }

  /** `text` is what Python's `full[:limit]` leaves: negative limits count from the end. */
  ghost predicate IsCut(full: string, limit: int, text: string) {
    && text <= full
    && (limit >= 0 ==> |text| == if limit <= |full| then limit else |full|)
    && (limit < 0 ==> |text| == if -limit <= |full| then |full| + limit else 0)
  }

  lemma CutIs(full: string, limit: int)
    ensures IsCut(full, limit, Cut(full, limit))
  {
  }

  lemma LineIs(p: Plan, texts: Texts, c: Id, summary: Option<string>)
    ensures LineOf(p, texts, c, summary, CalleeLine(p, texts, c, summary))
  {
  }

  /** Also in every later state of the run, the text that was sent is the cut of a text that has, line by line, the names of
      the callees outside the group and their final summaries; without such callees it is the cut of a fixed text. */
  lemma PromptTextShows(p: Plan, cache0: map<Id, Entry>, texts: Texts, limit: int, s: State, f: Id)
    returns (full: string, lines: seq<string>, starts: seq<nat>)
    requires ValidPlan(p) && Reachable(p, cache0, s) && f in p.g.nodes && f in p.schedule.groupOf
    requires TaskOf(s, f) in {Prompting, Settled(Ready), Settled(Failed)}
    ensures f in s.prompts && |s.prompts[f]| == |OutsideCallees(p, f)|
    ensures IsCut(full, limit, Cut(FullText(p, texts, OutsideCallees(p, f), s.prompts[f]), limit))
    ensures OutsideCallees(p, f) == [] ==> full == texts.leaf
    ensures OutsideCallees(p, f) != [] ==>
      FinalLines(p, texts, s, OutsideCallees(p, f), lines) && StandsAt(lines, starts, full)
  {
    hide ValidPlan, Reachable, JoinLines, Cut, IsCut, StandsAt, OutsideCallees, CalleeLine, LineOf;
    PromptShowsFinalSummaries(p, cache0, s, f);
    var callees := OutsideCallees(p, f);
    full := FullText(p, texts, callees, s.prompts[f]);
    lines := CalleeLines(p, texts, callees, s.prompts[f]);
    starts := JoinedStands(lines);
    CutIs(full, limit);
    forall i | 0 <= i < |callees| ensures callees[i] in s.summaries && LineOf(p, texts, callees[i], s.summaries[callees[i]], lines[i]) {
      LineIs(p, texts, callees[i], s.prompts[f][i]);
    }
  }

  /** So a line of the full text is shown in full exactly if it ends before the cut. */
  lemma ShownIff(lines: seq<string>, starts: seq<nat>, full: string, limit: int, text: string, i: nat)
    requires StandsAt(lines, starts, full) && IsCut(full, limit, text) && i < |lines|
    ensures starts[i] + |lines[i]| <= |text| <==>
      starts[i] <= |text| && lines[i] <= text[starts[i]..]
  {
    assert LineAt(lines, starts, full, i);
    if starts[i] + |lines[i]| <= |text| {
      assert text[starts[i]..starts[i] + |lines[i]|] == full[starts[i]..starts[i] + |lines[i]|];
    }
  }
}
