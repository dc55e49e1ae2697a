/** Which records put a launch into the forkproc indexes of a process: join, classification, deduplication, alias
    marking and index building together. */
module Promotion {
  import opened Wrappers
  import opened Orders
  import opened ValueStatus
  import opened DiscoveryRows
  import opened Evidence
  import opened Aggregates
  import A = WrapperAliases

  /** `r` is a wrapper's own call of its target, and `q` proves the same for a call of the wrapper. */
  predicate Covers(w: A.Wrappers, q: Row, r: Row) {
    var e := A.Enclosing(r);
    && e in w && r.target == w[e] && A.Proves(q) && q.target == e
    && q.operation == r.operation && q.value == r.value
  }

  ghost predicate Aliased(w: A.Wrappers, rows: seq<Row>, r: Row) {
    exists k :: 0 <= k < |rows| && Covers(w, rows[k], r)
  }

  lemma AliasedIff(w: A.Wrappers, rows: seq<Row>, r: Row)
    requires r.status == ExactRow
    ensures A.MarkRow(w, A.CoveredBy(w, rows), r).status == ExactRow <==> !Aliased(w, rows, r)
  {
    if Aliased(w, rows, r) {
      var k :| 0 <= k < |rows| && Covers(w, rows[k], r);
      var q := rows[k];
      assert q in rows;
      assert A.AliasKey(q.target, w[q.target], q.operation, q.value) in A.CoveredBy(w, rows);
    }
    if A.MarkRow(w, A.CoveredBy(w, rows), r).status != ExactRow {
      var j := A.Coverer(w, rows, r);
      CoveringRow(w, rows, r);
    }
  }

  lemma CoveringRow(w: A.Wrappers, rows: seq<Row>, r: Row)
    requires r.status == ExactRow && A.MarkRow(w, A.CoveredBy(w, rows), r).status != ExactRow
    ensures Aliased(w, rows, r)
  {
    var e := A.Enclosing(r);
    assert A.AliasKey(e, w[e], r.operation, r.value) in A.CoveredBy(w, rows);
    var q :| q in rows && q.target in w && A.Proves(q)
             && A.AliasKey(q.target, w[q.target], q.operation, q.value) == A.AliasKey(e, w[e], r.operation, r.value);
    var k :| 0 <= k < |rows| && rows[k] == q;
    assert Covers(w, rows[k], r);
  }

  lemma AliasedAfterDedupe(w: A.Wrappers, facts: seq<Row>, r: Row)
    requires A.ExactIsResolved(facts)
    ensures Aliased(w, Deduped(facts), r) <==> Aliased(w, facts, r)
  {
    hide Deduped, KeyOf;
    if Aliased(w, Deduped(facts), r) {
      var n :| 0 <= n < |Deduped(facts)| && Covers(w, Deduped(facts)[n], r);
      var i := RowIsLeading(facts, n);
      assert Covers(w, facts[i], r);
    }
    if Aliased(w, facts, r) {
      var k :| 0 <= k < |facts| && Covers(w, facts[k], r);
      assert HasKey(facts, KeyOf(facts[k]));
      var i := FirstLeads(facts, KeyOf(facts[k]));
      SameCovers(w, facts[i], facts[k], r);
      var n := LeadingHasRow(facts, i);
      assert Covers(w, Deduped(facts)[n], r);
    }
  }

  lemma SameCovers(w: A.Wrappers, a: Row, b: Row, r: Row)
    requires KeyOf(a) == KeyOf(b) && Covers(w, b, r) && (a.status == ExactRow ==> a.resolution == Resolved)
    ensures Covers(w, a, r)
  {
  }

  lemma AliasedByEvidence(setup: Setup, sites: seq<Site>, index: Index, covered: set<SiteKey>, records: seq<Record>, w: A.Wrappers, r: Row)
    ensures Aliased(w, AllRows(setup, sites, index, covered, records), r) <==> Aliased(w, EvidenceRows(setup, index, records), r)
  {
    hide UnreachableRows, RecordRow;
    var all, rows := AllRows(setup, sites, index, covered, records), EvidenceRows(setup, index, records);
    forall k | 0 <= k < |all| && Covers(w, all[k], r) ensures k < |rows| && all[k] == rows[k] {
      ExactIsEvidence(setup, sites, index, covered, records, k);
    }
    assert forall k :: 0 <= k < |rows| ==> all[k] == rows[k];
  }

  // ------------------------------------------------ rows that enter an index

  /** Record `i` is the first of its discovery, may enter the exact indexes, and is no alias of a wrapper's call. */
  ghost predicate Enters(setup: Setup, index: Index, records: seq<Record>, promotable: set<string>, i: int) {
    var rows := EvidenceRows(setup, index, records);
    && Leading(rows, i) && MayPromote(rows[i], promotable)
    && !Aliased(A.WrappersOf(setup.targets), rows, rows[i])
  }

  /** What stays of a record's row: all but the path count and the notes on aliases. */
  ghost predicate SameFact(a: Row, b: Row) {
    a == b.(pathCount := a.pathCount, metadata := a.metadata)
  }

  /** A row of the output that may enter the exact indexes is that of a record that enters. */
  lemma PromotedIsEntered(setup: Setup, sites: seq<Site>, index: Index, covered: set<SiteKey>, records: seq<Record>,
                          promotable: set<string>, n: nat) returns (i: nat)
    requires n < |Output(setup, sites, index, covered, records)|
    requires MayPromote(Output(setup, sites, index, covered, records)[n], promotable)
    ensures Enters(setup, index, records, promotable, i)
    ensures i < |EvidenceRows(setup, index, records)|
    ensures SameFact(Output(setup, sites, index, covered, records)[n], EvidenceRows(setup, index, records)[i])
  {
    hide Deduped, KeyOf, A.MarkRow, A.CoveredBy, A.WrappersOf, RecordRow, UnreachableRows, Aliased, A.ExactIsResolved, A.NoAliases;
    var all := AllRows(setup, sites, index, covered, records);
    var w := A.WrappersOf(setup.targets);
    A.MarkedLength(w, Deduped(all));
    A.MarkKeeps(w, Deduped(all), n);
    i := RowIsLeading(all, n);
    ExactIsEvidence(setup, sites, index, covered, records, i);
    LeadingInFront(EvidenceRows(setup, index, records), UnreachableRows(setup, sites, covered), i);
    AllRowsAreFresh(setup, sites, index, covered, records);
    AliasedIff(w, Deduped(all), Deduped(all)[n]);
    AliasedAfterDedupe(w, all, Deduped(all)[n]);
    AliasedByEvidence(setup, sites, index, covered, records, w, Deduped(all)[n]);
    AliasedSame(w, EvidenceRows(setup, index, records), Deduped(all)[n], all[i]);
  }

  lemma AliasedSame(w: A.Wrappers, rows: seq<Row>, a: Row, b: Row)
    requires a == b.(pathCount := a.pathCount)
    ensures Aliased(w, rows, a) <==> Aliased(w, rows, b)
  {
    assert forall q :: Covers(w, q, a) <==> Covers(w, q, b);
  }

  /** The row of a record that enters is in the output, and may enter the exact indexes there. */
  lemma EnteredIsPromoted(setup: Setup, sites: seq<Site>, index: Index, covered: set<SiteKey>, records: seq<Record>,
                          promotable: set<string>, i: nat) returns (n: nat)
    requires Enters(setup, index, records, promotable, i)
    ensures n < |Output(setup, sites, index, covered, records)|
    ensures MayPromote(Output(setup, sites, index, covered, records)[n], promotable)
    ensures i < |EvidenceRows(setup, index, records)|
    ensures SameFact(Output(setup, sites, index, covered, records)[n], EvidenceRows(setup, index, records)[i])
  {
    hide Deduped, KeyOf, A.MarkRow, A.CoveredBy, A.WrappersOf, RecordRow, UnreachableRows, Aliased, A.ExactIsResolved, A.NoAliases;
    var all := AllRows(setup, sites, index, covered, records);
    var w := A.WrappersOf(setup.targets);
    assert all[i] == EvidenceRows(setup, index, records)[i];
    LeadingInFront(EvidenceRows(setup, index, records), UnreachableRows(setup, sites, covered), i);
    n := LeadingHasRow(all, i);
    A.MarkedLength(w, Deduped(all));
    A.MarkKeeps(w, Deduped(all), n);
    AllRowsAreFresh(setup, sites, index, covered, records);
    AliasedIff(w, Deduped(all), Deduped(all)[n]);
    AliasedAfterDedupe(w, all, Deduped(all)[n]);
    AliasedByEvidence(setup, sites, index, covered, records, w, Deduped(all)[n]);
    AliasedSame(w, EvidenceRows(setup, index, records), Deduped(all)[n], all[i]);
  }

  // ------------------------------------------------ launches

  /** Record `i` enters and launches `package` at a line of `file`. */
  ghost predicate LaunchesFrom(setup: Setup, index: Index, records: seq<Record>, promotable: set<string>,
                               name: string -> Option<string>, file: string, line: int, package: string, i: int) {
    && Enters(setup, index, records, promotable, i)
    && var r := EvidenceRows(setup, index, records)[i];
       Launches(r, promotable, name, package) && r.siteFile == file && r.siteLine == line
  }

  ghost predicate LaunchRecorded(setup: Setup, index: Index, records: seq<Record>, promotable: set<string>,
                                 name: string -> Option<string>, file: string, line: int, package: string) {
    exists i :: LaunchesFrom(setup, index, records, promotable, name, file, line, package, i)
  }

  /** The output launches a package at a line exactly if a record does that is the first of its discovery, may enter the
      exact indexes, and is not covered by a call of the wrapper it is in. */
  lemma LaunchedIff(setup: Setup, sites: seq<Site>, index: Index, covered: set<SiteKey>, records: seq<Record>,
                    promotable: set<string>, name: string -> Option<string>, file: string, line: int, package: string)
    ensures Launched(Output(setup, sites, index, covered, records), promotable, name, file, line, package)
            <==> LaunchRecorded(setup, index, records, promotable, name, file, line, package)
  {
    hide Output, EvidenceRows, Enters, MayPromote;
    var output := Output(setup, sites, index, covered, records);
    if Launched(output, promotable, name, file, line, package) {
      var n :| 0 <= n < |output| && Launches(output[n], promotable, name, package)
               && output[n].siteFile == file && output[n].siteLine == line;
      var i := PromotedIsEntered(setup, sites, index, covered, records, promotable, n);
      SameLaunch(output[n], EvidenceRows(setup, index, records)[i], promotable, name, package);
      assert LaunchesFrom(setup, index, records, promotable, name, file, line, package, i);
    }
    if LaunchRecorded(setup, index, records, promotable, name, file, line, package) {
      var i :| LaunchesFrom(setup, index, records, promotable, name, file, line, package, i);
      EntersInRange(setup, index, records, promotable, i);
      var n := EnteredIsPromoted(setup, sites, index, covered, records, promotable, i);
      SameLaunch(output[n], EvidenceRows(setup, index, records)[i], promotable, name, package);
    }
  }

  lemma EntersInRange(setup: Setup, index: Index, records: seq<Record>, promotable: set<string>, i: int)
    requires Enters(setup, index, records, promotable, i)
    ensures 0 <= i < |EvidenceRows(setup, index, records)|
  {
    hide KeyOf, RecordRow, Aliased;
  }

  lemma SameLaunch(a: Row, b: Row, promotable: set<string>, name: string -> Option<string>, package: string)
    requires SameFact(a, b)
    ensures Launches(a, promotable, name, package) <==> Launches(b, promotable, name, package)
    ensures a.siteFile == b.siteFile && a.siteLine == b.siteLine
  {
  }

  /** From the records of a run to the two forkproc indexes of its process. */
  method ForkprocIndexes(setup: Setup, sites: seq<Site>, records: seq<Record>, rootState: string, name: string -> Option<string>)
    returns (callers: Payload<string>, targets: Payload<Launch>, ghost index: Index)
    ensures Indexes(sites, index) && Inverse(callers, targets)
    ensures forall file, line, package :: Lists(targets, file, (line, package))
              <==> LaunchRecorded(setup, index, records, PromotableReach(rootState), name, file, line, package)
  {
    hide Launched, LaunchRecorded, Output, Indexes, CoveredSet, Shown, ShownUnreachable, IsCovered, Lists, Inverse, Increasing,
         PromotableReach;
    ghost var covered: set<SiteKey>;
    var rows: seq<Row>;
    rows, index, covered := ValueflowRecordsToFacts(setup, sites, records);
    callers, targets := BuildForkproc(rows, rootState, name);
    ghost var promotable := PromotableReach(rootState);
    forall file, line, package
      ensures Lists(targets, file, (line, package)) <==> LaunchRecorded(setup, index, records, promotable, name, file, line, package)
    {
      LaunchedIff(setup, sites, index, covered, records, promotable, name, file, line, package);
    }
  }

  // ------------------------------------------------ when it does not matter which record comes first

  /** The records of a run with a recognised root: what is resolved is reached from a root, or proved inside its function. */
  ghost predicate FromRoots(setup: Setup, records: seq<Record>) {
    && setup.roots.Some? && setup.roots.value.state == "OK"
    && forall r :: r in records && Constant(r.fact.origin) ==>
         || r.fact.linkMethod == "LOCAL_BACKWALK"
         || (r.site.caller != "" && (r.site.caller in setup.roots.value.direct || r.site.caller in setup.roots.value.reachable))
  }

  predicate SameLine(setup: Setup, r: Record, q: Record) {
    setup.relative(r.site.file) == setup.relative(q.site.file) && r.site.line == q.site.line
  }

  /** Records at one line are of functions of one name. */
  ghost predicate OneFunctionPerLine(setup: Setup, records: seq<Record>) {
    forall r, q :: r in records && q in records && SameLine(setup, r, q) ==>
      AfterBracket(r.site.caller) == AfterBracket(q.site.caller)
  }

  /** Whether a row is in the process is decided by its discovery key. */
  lemma SameKeySameProcess(setup: Setup, sites: seq<Site>, index: Index, records: seq<Record>, i: nat, j: nat)
    requires Indexes(sites, index) && i < |records| && j < |records|
    requires KeyOf(EvidenceRows(setup, index, records)[i]) == KeyOf(EvidenceRows(setup, index, records)[j])
    ensures EvidenceRows(setup, index, records)[i].inProcess == EvidenceRows(setup, index, records)[j].inProcess
  {
    hide Indexes, Join, InfoOf, GroupKey, AfterBracket, RowMetadata, RowStatus, Reachability;
    forall k | k in {i, j} && JoinRecord(setup, index, records[k]).Some?
      ensures var r := EvidenceRows(setup, index, records)[k];
        Join(index, r.target, r.siteFile, r.siteLine, r.argIndex) == JoinRecord(setup, index, records[k])
    {
      var r := records[k];
      JoinByOwnArgument(sites, index, r.target, setup.relative(r.site.file), r.site.line, r.argIndex);
    }
  }

  lemma FromRootsPromotes(setup: Setup, index: Index, records: seq<Record>, i: nat)
    requires FromRoots(setup, records) && i < |records|
    requires EvidenceRows(setup, index, records)[i].status == ExactRow && EvidenceRows(setup, index, records)[i].inProcess
    ensures MayPromote(EvidenceRows(setup, index, records)[i], PromotableReach("OK"))
  {
    hide Join, InfoOf, GroupKey, AfterBracket, RowMetadata;
    assert records[i] in records;
  }

  lemma SameKeyEncloses(setup: Setup, index: Index, records: seq<Record>, i: nat, j: nat)
    requires OneFunctionPerLine(setup, records) && i < |records| && j < |records|
    requires KeyOf(EvidenceRows(setup, index, records)[i]) == KeyOf(EvidenceRows(setup, index, records)[j])
    ensures A.Enclosing(EvidenceRows(setup, index, records)[i]) == A.Enclosing(EvidenceRows(setup, index, records)[j])
  {
    hide Join, InfoOf, GroupKey, AfterBracket, RowStatus, Reachability;
    assert records[i] in records && records[j] in records;
  }

  lemma SameEnclosingAliased(w: A.Wrappers, rows: seq<Row>, a: Row, b: Row)
    requires KeyOf(a) == KeyOf(b) && A.Enclosing(a) == A.Enclosing(b)
    ensures Aliased(w, rows, a) <==> Aliased(w, rows, b)
  {
    hide A.Enclosing;
    assert forall q :: Covers(w, q, a) <==> Covers(w, q, b);
  }

  /** Record `i` launches `package` at a line of `file`, and no call of the wrapper around it covers that. */
  ghost predicate LaunchesUncovered(setup: Setup, index: Index, records: seq<Record>, promotable: set<string>,
                                    name: string -> Option<string>, file: string, line: int, package: string, i: int) {
    var rows := EvidenceRows(setup, index, records);
    && 0 <= i < |rows| && Launches(rows[i], promotable, name, package) && rows[i].siteFile == file && rows[i].siteLine == line
    && !Aliased(A.WrappersOf(setup.targets), rows, rows[i])
  }

  ghost predicate SomeLaunchesUncovered(setup: Setup, index: Index, records: seq<Record>, promotable: set<string>,
                                        name: string -> Option<string>, file: string, line: int, package: string) {
    exists i :: LaunchesUncovered(setup, index, records, promotable, name, file, line, package, i)
  }

  /** In a run with a root, and with one function to a line, every uncovered launch is indexed: no discovery is lost to
      the record that happens to come first. */
  lemma LaunchedByAny(setup: Setup, sites: seq<Site>, index: Index, records: seq<Record>,
                      name: string -> Option<string>, file: string, line: int, package: string)
    requires Indexes(sites, index) && FromRoots(setup, records) && OneFunctionPerLine(setup, records)
    ensures LaunchRecorded(setup, index, records, PromotableReach("OK"), name, file, line, package)
            <==> SomeLaunchesUncovered(setup, index, records, PromotableReach("OK"), name, file, line, package)
  {
    hide Indexes, EvidenceRows, KeyOf, Aliased, FromRoots, OneFunctionPerLine, PromotableReach, MayPromote, A.WrappersOf;
    var promotable := PromotableReach("OK");
    var rows := EvidenceRows(setup, index, records);
    if LaunchRecorded(setup, index, records, promotable, name, file, line, package) {
      var i :| LaunchesFrom(setup, index, records, promotable, name, file, line, package, i);
      EntersInRange(setup, index, records, promotable, i);
      assert LaunchesUncovered(setup, index, records, promotable, name, file, line, package, i);
    }
    if SomeLaunchesUncovered(setup, index, records, promotable, name, file, line, package) {
      var i :| LaunchesUncovered(setup, index, records, promotable, name, file, line, package, i);
      assert HasKey(rows, KeyOf(rows[i]));
      var first := FirstLeads(rows, KeyOf(rows[i]));
      EvidenceLength(setup, index, records);
      FirstLaunches(setup, sites, index, records, name, package, i, first);
      SameKeyEncloses(setup, index, records, i, first);
      SameEnclosingAliased(A.WrappersOf(setup.targets), rows, rows[i], rows[first]);
      assert LaunchesFrom(setup, index, records, promotable, name, file, line, package, first);
    }
  }

  lemma FirstLaunches(setup: Setup, sites: seq<Site>, index: Index, records: seq<Record>,
                      name: string -> Option<string>, package: string, i: nat, first: nat)
    requires Indexes(sites, index) && FromRoots(setup, records) && i < |records| && first < |records|
    requires |EvidenceRows(setup, index, records)| == |records|
    requires KeyOf(EvidenceRows(setup, index, records)[i]) == KeyOf(EvidenceRows(setup, index, records)[first])
    requires Launches(EvidenceRows(setup, index, records)[i], PromotableReach("OK"), name, package)
    ensures Launches(EvidenceRows(setup, index, records)[first], PromotableReach("OK"), name, package)
    ensures EvidenceRows(setup, index, records)[first].siteFile == EvidenceRows(setup, index, records)[i].siteFile
    ensures EvidenceRows(setup, index, records)[first].siteLine == EvidenceRows(setup, index, records)[i].siteLine
  {
    hide Indexes, EvidenceRows, FromRoots, PromotableReach;
    SameKeySameProcess(setup, sites, index, records, i, first);
    FromRootsPromotes(setup, index, records, first);
  }

  lemma EvidenceLength(setup: Setup, index: Index, records: seq<Record>)
    ensures |EvidenceRows(setup, index, records)| == |records|
  {
    hide RecordRow, InfoOf;
  }

  // ------------------------------------------------ two inputs that lose a launch

  const TARGETS: map<string, A.Target> :=
    map["forkproc" := A.Target(ForkProc, false, ""), "start_pkg" := A.Target(ForkProc, true, "forkproc")]

  /** Every function is reached from a root. */
  const SETUP: Setup :=
    Setup(TARGETS, Text((s: string) => true, (n: int) => "", (s: string, n: int) => ""),
          Syntax((s: string) => true, (s: string) => true), (s: string) => s, (s: string) => s,
          Some(Roots({"[a.c]main", "[a.c]start_pkg", "[a.c]other", "[b.c]g"}, {}, "OK")))

  const NAME: string -> Option<string> := (s: string) => Some(s)

  /** The call of `forkproc` inside `start_pkg`, and calls of `start_pkg` from the process and from a file outside it. */
  const INSIDE: Site := Site("forkproc", "a.c", 10, 1, "pkg", "", "", true)
  const CALL: Site := Site("start_pkg", "a.c", 20, 1, "pkg", "", "", true)
  const OUTSIDE: Site := Site("start_pkg", "b.c", 20, 1, "pkg", "", "", false)
  const SITES: seq<Site> := [INSIDE, CALL, OUTSIDE]

  function RecordAt(s: Site, id: string, caller: string): Record {
    Record(CallSite(id, s.file, s.line, caller), s.target, 1, 1,
           Fact("pkg", Const, s.file, s.line, "pkg", "SYNTAX", "", map[]))
  }

  const INSIDE_RECORD: Record := RecordAt(INSIDE, "1", "[a.c]start_pkg")
  const CALL_RECORD: Record := RecordAt(CALL, "2", "[a.c]main")
  const OUTSIDE_RECORD: Record := RecordAt(OUTSIDE, "3", "[b.c]g")

  /** A second function on the same line calls `forkproc` as well. */
  const BESIDE_RECORD: Record := RecordAt(INSIDE, "4", "[a.c]other")

  const RECORDS := {INSIDE_RECORD, CALL_RECORD, OUTSIDE_RECORD, BESIDE_RECORD}

  lemma {:induction false} BehindBracket(before: string, name: string)
    requires ']' !in name
    ensures AfterBracket(before + "]" + name) == name
  {
    var s := before + "]" + name;
    if name != [] {
      BehindBracket(before, name[..|name| - 1]);
      assert s[..|s| - 1] == before + "]" + name[..|name| - 1];
    }
  }

  predicate OnlyThese(records: seq<Record>) {
    forall q :: q in records ==> q in RECORDS
  }

  lemma PkgIsResolved(records: seq<Record>, r: Record)
    requires r in records && OnlyThese(records)
    ensures InfoOf(SETUP.text, records, GroupKey(SETUP.text, r)).status == Resolved
  {
    hide GroupKey, InfoOf, InGroup;
    ResolvedIffUnanimous(SETUP.text, records, r);
  }

  lemma JoinsSite(index: Index, s: Site)
    requires Indexes(SITES, index) && s in SITES
    ensures Join(index, s.target, s.file, s.line, s.argIndex) == Some(s)
  {
    hide Indexes, Join;
    JoinIsAtPosition(SITES, index, s.target, s.file, s.line, s.argIndex);
    assert KeyOfSite(s) == SiteKey(s.target, s.file, s.line, s.argIndex);
  }

  ghost predicate RowIs(r: Row, s: Site, name: string) {
    && r.target == s.target && r.siteFile == s.file && r.siteLine == s.line && r.inProcess == s.inProcess
    && r.operation == "" && r.value == "pkg" && A.Proves(r) && A.Enclosing(r) == name
    && (s.inProcess ==> Launches(r, PromotableReach("OK"), NAME, "pkg"))
  }

  lemma PlaceOfRow(index: Index, records: seq<Record>, i: nat, s: Site, id: string, file: string, name: string)
    requires Indexes(SITES, index) && s in SITES && ']' !in name && i < |records|
    requires records[i] == RecordAt(s, id, "[" + file + "]" + name)
    ensures var r := EvidenceRows(SETUP, index, records)[i];
      && r.target == s.target && r.siteFile == s.file && r.siteLine == s.line && r.inProcess == s.inProcess
      && r.operation == "" && A.Enclosing(r) == name
      && (s.inProcess ==> r.reachability == Reachability(SETUP.roots, true, "[" + file + "]" + name))
  {
    hide Indexes, Join, InfoOf, GroupKey, AfterBracket, Reachability, RowStatus;
    JoinsSite(index, s);
    BehindBracket("[" + file, name);
  }

  lemma ValueOfRow(index: Index, records: seq<Record>, i: nat, s: Site, id: string, caller: string)
    requires s in SITES && i < |records| && records[i] == RecordAt(s, id, caller) && OnlyThese(records)
    ensures var r := EvidenceRows(SETUP, index, records)[i]; A.Proves(r) && r.value == "pkg" && r.resource == ForkProc
  {
    hide Join, InfoOf, GroupKey, AfterBracket, Reachability, RowMetadata;
    PkgIsResolved(records, records[i]);
  }

  lemma CallerIsReached(r: Record)
    requires r in RECORDS
    ensures Reachability(SETUP.roots, true, r.site.caller) in PromotableReach("OK")
  {
  }

  /** The row of a record at site `s`. */
  lemma RowAt(index: Index, records: seq<Record>, i: nat, s: Site, id: string, file: string, name: string)
    requires Indexes(SITES, index) && s in SITES && ']' !in name && i < |records|
    requires records[i] == RecordAt(s, id, "[" + file + "]" + name)
    requires OnlyThese(records)
    ensures RowIs(EvidenceRows(SETUP, index, records)[i], s, name)
  {
    hide Indexes, EvidenceRows, A.Enclosing, A.Proves, Reachability, PromotableReach;
    EvidenceLength(SETUP, index, records);
    assert records[i] in records;
    CallerIsReached(records[i]);
    PlaceOfRow(index, records, i, s, id, file, name);
    ValueOfRow(index, records, i, s, id, "[" + file + "]" + name);
    ProvesExact(EvidenceRows(SETUP, index, records)[i]);
  }

  lemma ProvesExact(r: Row)
    requires A.Proves(r)
    ensures r.status == ExactRow
  {
  }

  lemma OneWrapper()
    ensures A.WrappersOf(SETUP.targets) == A.ONE_WRAPPER
  {
  }

  lemma InsideRow(index: Index, records: seq<Record>, i: nat)
    requires Indexes(SITES, index) && OnlyThese(records) && i < |records| && records[i] == INSIDE_RECORD
    ensures RowIs(EvidenceRows(SETUP, index, records)[i], INSIDE, "start_pkg")
  {
    hide EvidenceRows, RowIs, Indexes, OnlyThese;
    RowAt(index, records, i, INSIDE, "1", "a.c", "start_pkg");
  }

  lemma CallRow(index: Index, records: seq<Record>, i: nat)
    requires Indexes(SITES, index) && OnlyThese(records) && i < |records| && records[i] == CALL_RECORD
    ensures RowIs(EvidenceRows(SETUP, index, records)[i], CALL, "main")
  {
    hide EvidenceRows, RowIs, Indexes, OnlyThese;
    RowAt(index, records, i, CALL, "2", "a.c", "main");
  }

  lemma OutsideRow(index: Index, records: seq<Record>, i: nat)
    requires Indexes(SITES, index) && OnlyThese(records) && i < |records| && records[i] == OUTSIDE_RECORD
    ensures RowIs(EvidenceRows(SETUP, index, records)[i], OUTSIDE, "g")
  {
    hide EvidenceRows, RowIs, Indexes, OnlyThese;
    RowAt(index, records, i, OUTSIDE, "3", "b.c", "g");
  }

  lemma BesideRow(index: Index, records: seq<Record>, i: nat)
    requires Indexes(SITES, index) && OnlyThese(records) && i < |records| && records[i] == BESIDE_RECORD
    ensures RowIs(EvidenceRows(SETUP, index, records)[i], INSIDE, "other")
  {
    hide EvidenceRows, RowIs, Indexes, OnlyThese;
    RowAt(index, records, i, INSIDE, "4", "a.c", "other");
  }

  lemma TheseOnly()
    ensures OnlyThese([INSIDE_RECORD]) && OnlyThese([INSIDE_RECORD, OUTSIDE_RECORD])
    ensures OnlyThese([BESIDE_RECORD, INSIDE_RECORD, CALL_RECORD]) && OnlyThese([INSIDE_RECORD, BESIDE_RECORD, CALL_RECORD])
  {
  }

  /** A call of the wrapper covers what is launched inside it. */
  lemma CallCovers(q: Row, r: Row, call: Site, name: string)
    requires RowIs(q, call, name) && call in {CALL, OUTSIDE} && RowIs(r, INSIDE, "start_pkg")
    ensures Covers(A.ONE_WRAPPER, q, r)
  {
    hide A.Enclosing, Launches;
  }

  lemma FirstLaunchIsRecorded(setup: Setup, index: Index, records: seq<Record>, promotable: set<string>,
                              name: string -> Option<string>, package: string)
    requires var rows := EvidenceRows(setup, index, records);
      && rows != [] && Launches(rows[0], promotable, name, package)
      && forall k :: 0 <= k < |rows| ==> rows[k].target != A.Enclosing(rows[0])
    ensures var r := EvidenceRows(setup, index, records)[0];
      LaunchRecorded(setup, index, records, promotable, name, r.siteFile, r.siteLine, package)
  {
    hide EvidenceRows, KeyOf, A.Enclosing, A.WrappersOf, MayPromote;
    var r := EvidenceRows(setup, index, records)[0];
    assert LaunchesFrom(setup, index, records, promotable, name, r.siteFile, r.siteLine, package, 0);
  }

  lemma OutsideLaunchesNothing(r: Row, promotable: set<string>, name: string -> Option<string>, package: string)
    requires !r.inProcess
    ensures !Launches(r, promotable, name, package)
  {
  }

  /** The launch inside `start_pkg` is indexed by itself, and in no index once a call of `start_pkg` from outside the
      process is recorded as well; there is no cycle of wrappers. */
  lemma OutsideCallHides(index: Index, file: string, line: int, package: string)
    requires Indexes(SITES, index)
    ensures !A.Cyclic(A.WrappersOf(SETUP.targets))
    ensures LaunchRecorded(SETUP, index, [INSIDE_RECORD], PromotableReach("OK"), NAME, "a.c", 10, "pkg")
    ensures !LaunchRecorded(SETUP, index, [INSIDE_RECORD, OUTSIDE_RECORD], PromotableReach("OK"), NAME, file, line, package)
  {
    hide Indexes, EvidenceRows, A.Cyclic, A.WrappersOf, LaunchRecorded;
    OneWrapper();
    var rows := A.AcyclicLoses();
    AloneLaunches(index);
    NoneEnters(index, file, line, package);
  }

  lemma AloneLaunches(index: Index)
    requires Indexes(SITES, index)
    ensures LaunchRecorded(SETUP, index, [INSIDE_RECORD], PromotableReach("OK"), NAME, "a.c", 10, "pkg")
  {
    hide Indexes, EvidenceRows, Launches, A.Enclosing, LaunchRecorded, OnlyThese;
    var records := [INSIDE_RECORD];
    TheseOnly();
    EvidenceLength(SETUP, index, records);
    InsideRow(index, records, 0);
    FirstLaunchIsRecorded(SETUP, index, records, PromotableReach("OK"), NAME, "pkg");
  }

  lemma NoneEnters(index: Index, file: string, line: int, package: string)
    requires Indexes(SITES, index)
    ensures !LaunchRecorded(SETUP, index, [INSIDE_RECORD, OUTSIDE_RECORD], PromotableReach("OK"), NAME, file, line, package)
  {
    hide Indexes, EvidenceRows, A.WrappersOf, KeyOf, Launches, MayPromote, A.Enclosing, Covers, OnlyThese;
    var records := [INSIDE_RECORD, OUTSIDE_RECORD];
    OneWrapper();
    TheseOnly();
    EvidenceLength(SETUP, index, records);
    InsideRow(index, records, 0);
    OutsideRow(index, records, 1);
    CallCovers(EvidenceRows(SETUP, index, records)[1], EvidenceRows(SETUP, index, records)[0], OUTSIDE, "g");
    OutsideLaunchesNothing(EvidenceRows(SETUP, index, records)[1], PromotableReach("OK"), NAME, package);
  }

  /** Two functions on one line launch the same package, one of them the wrapper. Their rows are one discovery, and the
      first one stays: the order of the records decides whether the line is indexed. */
  lemma FirstDecides(index: Index)
    requires Indexes(SITES, index)
    ensures LaunchRecorded(SETUP, index, [BESIDE_RECORD, INSIDE_RECORD, CALL_RECORD], PromotableReach("OK"), NAME, "a.c", 10, "pkg")
    ensures !LaunchRecorded(SETUP, index, [INSIDE_RECORD, BESIDE_RECORD, CALL_RECORD], PromotableReach("OK"), NAME, "a.c", 10, "pkg")
  {
    hide Indexes, LaunchRecorded;
    BesideFirst(index);
    InsideFirst(index);
  }

  lemma BesideFirst(index: Index)
    requires Indexes(SITES, index)
    ensures LaunchRecorded(SETUP, index, [BESIDE_RECORD, INSIDE_RECORD, CALL_RECORD], PromotableReach("OK"), NAME, "a.c", 10, "pkg")
  {
    hide Indexes, EvidenceRows, Launches, A.Enclosing, LaunchRecorded, OnlyThese;
    var records := [BESIDE_RECORD, INSIDE_RECORD, CALL_RECORD];
    TheseOnly();
    EvidenceLength(SETUP, index, records);
    BesideRow(index, records, 0);
    InsideRow(index, records, 1);
    CallRow(index, records, 2);
    FirstLaunchIsRecorded(SETUP, index, records, PromotableReach("OK"), NAME, "pkg");
  }

  lemma SameDiscovery(index: Index, records: seq<Record>)
    requires Indexes(SITES, index) && records == [INSIDE_RECORD, BESIDE_RECORD, CALL_RECORD]
    ensures KeyOf(EvidenceRows(SETUP, index, records)[0]) == KeyOf(EvidenceRows(SETUP, index, records)[1])
  {
    hide Indexes, Join, InfoOf, GroupKey, AfterBracket, RowMetadata, Reachability, OnlyThese;
    TheseOnly();
    assert records[0] in records && records[1] in records;
    PkgIsResolved(records, records[0]);
    PkgIsResolved(records, records[1]);
    JoinsSite(index, INSIDE);
  }

  lemma InsideFirst(index: Index)
    requires Indexes(SITES, index)
    ensures !LaunchRecorded(SETUP, index, [INSIDE_RECORD, BESIDE_RECORD, CALL_RECORD], PromotableReach("OK"), NAME, "a.c", 10, "pkg")
  {
    hide Indexes, EvidenceRows, A.WrappersOf, KeyOf, Launches, MayPromote, A.Enclosing, Covers, OnlyThese;
    var records := [INSIDE_RECORD, BESIDE_RECORD, CALL_RECORD];
    OneWrapper();
    TheseOnly();
    EvidenceLength(SETUP, index, records);
    SameDiscovery(index, records);
    InsideRow(index, records, 0);
    CallRow(index, records, 2);
    CallCovers(EvidenceRows(SETUP, index, records)[2], EvidenceRows(SETUP, index, records)[0], CALL, "main");
  }
}
