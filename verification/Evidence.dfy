/** Value-flow records become discovery rows; inventory sites without evidence stay visible. */
module Evidence {
  import opened Wrappers
  import opened ValueStatus
  import opened DiscoveryRows
  import A = WrapperAliases

  /** One argument of one target call found by the inventory. */
  datatype Site = Site(target: string, file: string, line: int, argIndex: int, expression: string, operation: string,
                       auxLock: string, inProcess: bool)

  datatype SiteKey = SiteKey(target: string, file: string, line: int, argIndex: int)

  datatype Roots = Roots(direct: set<string>, reachable: set<string>, state: string)

  /** `rel_to_source_root` and the lock vocabulary. */
  datatype Setup = Setup(targets: map<string, A.Target>, text: Text, syntax: Syntax,
                         relative: string -> string, lock: string -> string, roots: Option<Roots>)

  const OPEN_LOCK := "OPEN_LOCK"
  const ANY_ARG := -1

  function KeyOfSite(s: Site): SiteKey {
    SiteKey(s.target, s.file, s.line, s.argIndex)
  }

  function Position(s: Site): SiteKey {
    SiteKey(s.target, s.file, s.line, ANY_ARG)
  }

  function KeyOfRow(r: Row): SiteKey {
    SiteKey(r.target, r.siteFile, r.siteLine, r.argIndex)
  }

  // ------------------------------------------------ joining records to sites

  type Index = map<SiteKey, seq<Site>>

  /** A site goes under its argument and under its position. */
  function Under(s: Site, key: SiteKey): seq<Site> {
    (if KeyOfSite(s) == key then [s] else []) + (if Position(s) == key then [s] else [])
  }

  /** The list that the site index keeps under `key`. */
  function SitesUnder(sites: seq<Site>, key: SiteKey): seq<Site> {
    if sites == [] then [] else SitesUnder(sites[..|sites| - 1], key) + Under(sites[|sites| - 1], key)
  }

  ghost predicate Indexes(sites: seq<Site>, index: Index) {
    forall k :: (k in index <==> SitesUnder(sites, k) != []) && (k in index ==> index[k] == SitesUnder(sites, k))
  }

  function Append(index: Index, key: SiteKey, site: Site): Index {
    index[key := (if key in index then index[key] else []) + [site]]
  }

  function Listed(index: Index, key: SiteKey): seq<Site> {
    if key in index then index[key] else []
  }

  lemma AppendedAt(index: Index, s: Site, key: SiteKey)
    ensures var more := Append(Append(index, KeyOfSite(s), s), Position(s), s);
      Listed(more, key) == Listed(index, key) + Under(s, key) && (key in more <==> key in index || Under(s, key) != [])
  {
    hide KeyOfSite, Position;
  }

  lemma SiteEntered(sites: seq<Site>, index: Index)
    requires sites != [] && Indexes(sites[..|sites| - 1], index)
    ensures var s := sites[|sites| - 1]; Indexes(sites, Append(Append(index, KeyOfSite(s), s), Position(s), s))
  {
    hide SitesUnder, Under, KeyOfSite, Position, Append;
    var s := sites[|sites| - 1];
    var more := Append(Append(index, KeyOfSite(s), s), Position(s), s);
    forall key ensures Listed(more, key) == SitesUnder(sites, key) && (key in more <==> SitesUnder(sites, key) != []) {
      AppendedAt(index, s, key);
      SitesUnderSnoc(sites, key);
    }
  }

  method MakeSiteIndex(sites: seq<Site>) returns (index: Index)
    ensures Indexes(sites, index)
  {
    hide Indexes;
    index := map[];
    NothingIndexed();
    var n := 0;
    while n < |sites|
      invariant 0 <= n <= |sites| && Indexes(sites[..n], index)
    {
      assert sites[..n + 1][..n] == sites[..n];
      SiteEntered(sites[..n + 1], index);
      index := Append(Append(index, KeyOfSite(sites[n]), sites[n]), Position(sites[n]), sites[n]);
      n := n + 1;
    }
    assert sites[..n] == sites;
  }

  lemma NothingIndexed()
    ensures Indexes([], map[])
  {
  }

  function Join(index: Index, target: string, file: string, line: int, argIndex: int): Option<Site> {
    var key := SiteKey(target, file, line, argIndex);
    var position := SiteKey(target, file, line, ANY_ARG);
    if key in index && index[key] != [] then Some(index[key][0])
    else if position in index && |index[position]| == 1 then Some(index[position][0])
    else None
  }

  lemma {:induction false} SitesUnderAre(sites: seq<Site>, key: SiteKey)
    ensures forall s :: s in SitesUnder(sites, key) <==> s in sites && (KeyOfSite(s) == key || Position(s) == key)
  {
    if sites != [] {
      SitesUnderAre(sites[..|sites| - 1], key);
      assert sites == sites[..|sites| - 1] + [sites[|sites| - 1]];
    }
  }

  /** A joined site lies at the record's position, and takes the record's argument whenever the inventory has it. */
  lemma JoinIsAtPosition(sites: seq<Site>, index: Index, target: string, file: string, line: int, argIndex: int)
    requires Indexes(sites, index)
    ensures var joined := Join(index, target, file, line, argIndex);
      && (joined.Some? ==> joined.value in sites && Position(joined.value) == SiteKey(target, file, line, ANY_ARG))
      && (argIndex != ANY_ARG && (exists s :: s in sites && KeyOfSite(s) == SiteKey(target, file, line, argIndex)) ==>
            joined.Some? && KeyOfSite(joined.value) == SiteKey(target, file, line, argIndex))
  {
    SitesUnderAre(sites, SiteKey(target, file, line, argIndex));
    SitesUnderAre(sites, SiteKey(target, file, line, ANY_ARG));
  }

  /** The first site at a position is the first under its own argument. */
  lemma {:induction false} FirstAtPosition(sites: seq<Site>, position: SiteKey)
    requires position.argIndex == ANY_ARG && SitesUnder(sites, position) != []
    ensures var s := SitesUnder(sites, position)[0];
      Position(s) == position && SitesUnder(sites, KeyOfSite(s)) != [] && SitesUnder(sites, KeyOfSite(s))[0] == s
  {
    hide SitesUnder, Under, KeyOfSite, Position;
    SitesUnderSnoc(sites, position);
    var init, s := sites[..|sites| - 1], SitesUnder(sites, position)[0];
    SitesUnderSnoc(sites, KeyOfSite(s));
    if SitesUnder(init, position) != [] {
      FirstAtPosition(init, position);
    } else {
      AtPosition(sites[|sites| - 1], position);
      NoneAtPosition(init, position, KeyOfSite(s));
    }
  }

  lemma SitesUnderSnoc(sites: seq<Site>, key: SiteKey)
    ensures sites == [] ==> SitesUnder(sites, key) == []
    ensures sites != [] ==> SitesUnder(sites, key) == SitesUnder(sites[..|sites| - 1], key) + Under(sites[|sites| - 1], key)
  {
  }

  lemma AtPosition(s: Site, position: SiteKey)
    requires position.argIndex == ANY_ARG && Under(s, position) != []
    ensures Under(s, position)[0] == s && Position(s) == position && position == KeyOfSite(s).(argIndex := ANY_ARG)
    ensures Under(s, KeyOfSite(s)) != [] && Under(s, KeyOfSite(s))[0] == s
  {
  }

  lemma {:induction false} NoneAtPosition(sites: seq<Site>, position: SiteKey, key: SiteKey)
    requires SitesUnder(sites, position) == [] && position == key.(argIndex := ANY_ARG)
    ensures SitesUnder(sites, key) == []
  {
    if sites != [] {
      NoneAtPosition(sites[..|sites| - 1], position, key);
    }
  }

  lemma ByOwnArgument(sites: seq<Site>, index: Index, position: SiteKey)
    requires Indexes(sites, index) && position in index && position.argIndex == ANY_ARG
    ensures index[position] != []
    ensures var s := index[position][0];
      Position(s) == position && KeyOfSite(s) in index && index[KeyOfSite(s)] != [] && index[KeyOfSite(s)][0] == s
  {
    hide SitesUnder, KeyOfSite, Position;
    FirstAtPosition(sites, position);
  }

  lemma ByGivenArgument(sites: seq<Site>, index: Index, key: SiteKey)
    requires Indexes(sites, index) && key in index && index[key] != [] && key.argIndex != ANY_ARG
    ensures KeyOfSite(index[key][0]) == key
  {
    hide SitesUnder;
    SitesUnderAre(sites, key);
    assert index[key][0] in SitesUnder(sites, key);
  }

  /** Looking up the argument of the joined site joins the same site. */
  lemma JoinByOwnArgument(sites: seq<Site>, index: Index, target: string, file: string, line: int, argIndex: int)
    requires Indexes(sites, index) && Join(index, target, file, line, argIndex).Some?
    ensures var joined := Join(index, target, file, line, argIndex);
      Join(index, target, file, line, joined.value.argIndex) == joined
  {
    hide Indexes;
    var key, position := SiteKey(target, file, line, argIndex), SiteKey(target, file, line, ANY_ARG);
    if key in index && index[key] != [] && argIndex != ANY_ARG {
      ByGivenArgument(sites, index, key);
    } else {
      ByOwnArgument(sites, index, position);
    }
  }

  // ------------------------------------------------ rows from records

  function ResourceFor(setup: Setup, target: string): Resource {
    if target in setup.targets then setup.targets[target].resource else NoResource
  }

  function Reachability(roots: Option<Roots>, inProcess: bool, caller: string): string {
    if roots.None? then "UNKNOWN"
    else if !inProcess then "OUT_OF_PROCESS_SCOPE"
    else if caller != "" && caller in roots.value.direct then "DIRECT_ROOT"
    else if caller != "" && caller in roots.value.reachable then "CALLBACK"
    else if roots.value.state == "ROOT_PARSE_FAILURE" || roots.value.state == "NO_PROCESS_ROOT" then roots.value.state
    else "UNREACHABLE_IN_PROCESS"
  }

  /** The text after the last closing bracket of a node label. */
  function AfterBracket(s: string): string {
    if s == [] || s[|s| - 1] == ']' then [] else AfterBracket(s[..|s| - 1]) + [s[|s| - 1]]
  }

  function Operation(setup: Setup, joined: Option<Site>): string {
    if joined.None? then ""
    else if joined.value.operation == OPEN_LOCK then setup.lock(joined.value.auxLock)
    else joined.value.operation
  }

  function RowMetadata(setup: Setup, r: Record, operation: string): map<string, string> {
    var m := r.fact.metadata["enclosing_function" := AfterBracket(r.site.caller)];
    if r.target in setup.targets && setup.targets[r.target].wrapper then
      m["site_role" := "WRAPPER_CALL"]["canonical_target" := setup.targets[r.target].canonical]["canonical_operation" := operation]
    else m
  }

  function RecordRow(setup: Setup, r: Record, joined: Option<Site>, info: Info): Row {
    var resource := ResourceFor(setup, r.target);
    var operation := Operation(setup, joined);
    var (status, value) := RowStatus(setup.syntax, r.fact, resource, operation, info.status);
    var inProcess := joined.None? || joined.value.inProcess;
    Row("valueflow", r.target, setup.relative(r.site.file), r.site.line,
        if joined.Some? then joined.value.argIndex else r.argIndex,
        if joined.Some? then joined.value.expression else r.fact.sourceExpr,
        resource, value, operation, setup.relative(r.fact.sourceFile), r.fact.sourceLine, r.fact.sourceExpr, r.fact.origin,
        r.fact.resolvedBy, r.fact.linkMethod, r.pathCount, status, inProcess,
        if r.fact.linkMethod == "LOCAL_BACKWALK" then "LOCAL_BACKWALK" else Reachability(setup.roots, inProcess, r.site.caller),
        RowMetadata(setup, r, operation), info.status, info.setId)
  }

  function JoinRecord(setup: Setup, index: Index, r: Record): Option<Site> {
    Join(index, r.target, setup.relative(r.site.file), r.site.line, r.argIndex)
  }

  /** The inventory key that a record covers. */
  function CoveredKey(setup: Setup, index: Index, r: Record): Option<SiteKey> {
    var joined := JoinRecord(setup, index, r);
    if joined.None? then None
    else Some(SiteKey(r.target, setup.relative(r.site.file), r.site.line, joined.value.argIndex))
  }

  ghost predicate IsCovered(setup: Setup, index: Index, records: seq<Record>, key: SiteKey) {
    exists i :: 0 <= i < |records| && CoveredKey(setup, index, records[i]) == Some(key)
  }

  ghost function EvidenceRows(setup: Setup, index: Index, records: seq<Record>): seq<Row> {
    seq(|records|, i requires 0 <= i < |records| =>
      RecordRow(setup, records[i], JoinRecord(setup, index, records[i]), InfoOf(setup.text, records, GroupKey(setup.text, records[i]))))
  }

  // ------------------------------------------------ rows of sites without evidence

  function UnreachableRow(setup: Setup, s: Site): Row {
    Row("valueflow", s.target, s.file, s.line, s.argIndex, s.expression, ResourceFor(setup, s.target), "", s.operation,
        s.file, s.line, s.expression, OtherOrigin(""), "", "", 0, ValueStatus.UnreachableRow, s.inProcess,
        Reachability(setup.roots, s.inProcess, ""),
        map["source_role" := "TARGET_FALLBACK", "trace_complete" := "False", "termination_reason" := "UNREACHABLE_TARGET"],
        Unresolved, "")
  }

  function UnreachableRows(setup: Setup, sites: seq<Site>, covered: set<SiteKey>): seq<Row> {
    if sites == [] then []
    else
      var last := sites[|sites| - 1];
      UnreachableRows(setup, sites[..|sites| - 1], covered) + if KeyOfSite(last) in covered then [] else [UnreachableRow(setup, last)]
  }

  method UnreachableFacts(setup: Setup, sites: seq<Site>, covered: set<SiteKey>) returns (rows: seq<Row>)
    ensures rows == UnreachableRows(setup, sites, covered)
  {
    hide UnreachableRow;
    rows := [];
    for n := 0 to |sites|
      invariant rows == UnreachableRows(setup, sites[..n], covered)
    {
      assert sites[..n + 1][..n] == sites[..n];
      if KeyOfSite(sites[n]) !in covered {
        rows := rows + [UnreachableRow(setup, sites[n])];
      }
    }
    assert sites[..|sites|] == sites;
  }

  /** Everything before deduplication. */
  ghost function AllRows(setup: Setup, sites: seq<Site>, index: Index, covered: set<SiteKey>, records: seq<Record>): seq<Row> {
    EvidenceRows(setup, index, records) + UnreachableRows(setup, sites, covered)
  }

  ghost predicate CoveredSet(setup: Setup, index: Index, records: seq<Record>, covered: set<SiteKey>) {
    forall k :: k in covered <==> IsCovered(setup, index, records, k)
  }

  method ReadRecords(setup: Setup, index: Index, records: seq<Record>) returns (rows: seq<Row>, covered: set<SiteKey>)
    ensures rows == EvidenceRows(setup, index, records)
    ensures CoveredSet(setup, index, records, covered)
  {
    hide RecordRow, GroupKey, InfoOf, Join;
    var info := ClassifyRecords(setup.text, records);
    rows, covered := [], {};
    for n := 0 to |records|
      invariant rows == EvidenceRows(setup, index, records)[..n]
      invariant CoveredSet(setup, index, records[..n], covered)
    {
      var r := records[n];
      var joined := JoinRecord(setup, index, r);
      CoveredSnoc(setup, index, records, n);
      if joined.Some? {
        covered := covered + {SiteKey(r.target, setup.relative(r.site.file), r.site.line, joined.value.argIndex)};
      }
      rows := rows + [RecordRow(setup, r, joined, info[n])];
    }
    assert records[..|records|] == records;
  }

  lemma CoveredSnoc(setup: Setup, index: Index, records: seq<Record>, n: nat)
    requires n < |records|
    ensures forall k :: IsCovered(setup, index, records[..n + 1], k) <==>
                        IsCovered(setup, index, records[..n], k) || CoveredKey(setup, index, records[n]) == Some(k)
  {
    hide CoveredKey;
    var upTo := records[..n + 1];
    forall k | IsCovered(setup, index, records[..n], k) || CoveredKey(setup, index, records[n]) == Some(k)
      ensures IsCovered(setup, index, upTo, k)
    {
      if CoveredKey(setup, index, records[n]) == Some(k) {
        assert CoveredKey(setup, index, upTo[n]) == Some(k);
      } else {
        var i :| 0 <= i < n && CoveredKey(setup, index, records[..n][i]) == Some(k);
        assert CoveredKey(setup, index, upTo[i]) == Some(k);
      }
    }
  }

  // ------------------------------------------------ every call site stays visible

  /** Some row speaks about `key`. */
  ghost predicate Shown(rows: seq<Row>, key: SiteKey) {
    exists i :: 0 <= i < |rows| && KeyOfRow(rows[i]) == key
  }

  ghost predicate ShownUnreachable(rows: seq<Row>, key: SiteKey) {
    exists i :: 0 <= i < |rows| && KeyOfRow(rows[i]) == key && rows[i].status == ValueStatus.UnreachableRow
  }

  lemma EvidenceRowsShow(setup: Setup, index: Index, records: seq<Record>, key: SiteKey)
    requires IsCovered(setup, index, records, key)
    ensures Shown(EvidenceRows(setup, index, records), key)
  {
    hide InfoOf, GroupKey, RowStatus, Join, RowMetadata, Reachability, Operation;
    var i :| 0 <= i < |records| && CoveredKey(setup, index, records[i]) == Some(key);
    assert KeyOfRow(EvidenceRows(setup, index, records)[i]) == key;
  }

  lemma EvidenceIsReachable(setup: Setup, index: Index, records: seq<Record>, i: nat)
    requires i < |records|
    ensures EvidenceRows(setup, index, records)[i].status !in {ValueStatus.UnreachableRow, AliasInternalRow}
    ensures EvidenceRows(setup, index, records)[i].status == ExactRow ==> EvidenceRows(setup, index, records)[i].resolution == Resolved
    ensures EvidenceRows(setup, index, records)[i].pathCount == records[i].pathCount
  {
    hide InfoOf, GroupKey, Join, RowMetadata, Reachability, Operation;
  }

  lemma {:induction false} UnreachableRowsAre(setup: Setup, sites: seq<Site>, covered: set<SiteKey>)
    ensures forall r :: r in UnreachableRows(setup, sites, covered) <==>
      exists s :: s in sites && KeyOfSite(s) !in covered && r == UnreachableRow(setup, s)
  {
    hide UnreachableRow, KeyOfSite;
    if sites != [] {
      var before, last := sites[..|sites| - 1], sites[|sites| - 1];
      assert sites == before + [last];
      UnreachableRowsAre(setup, before, covered);
    }
  }

  lemma UnreachableRowShows(setup: Setup, s: Site)
    ensures KeyOfRow(UnreachableRow(setup, s)) == KeyOfSite(s) && UnreachableRow(setup, s).status == ValueStatus.UnreachableRow
    ensures UnreachableRow(setup, s).pathCount == 0
  {
  }

  lemma UnreachableShown(setup: Setup, sites: seq<Site>, covered: set<SiteKey>, s: Site)
    requires s in sites
    ensures ShownUnreachable(UnreachableRows(setup, sites, covered), KeyOfSite(s)) <==> KeyOfSite(s) !in covered
  {
    hide UnreachableRow, UnreachableRows, KeyOfSite, KeyOfRow;
    var rows := UnreachableRows(setup, sites, covered);
    UnreachableRowsAre(setup, sites, covered);
    if KeyOfSite(s) !in covered {
      UnreachableRowShows(setup, s);
      assert UnreachableRow(setup, s) in rows;
    }
    if ShownUnreachable(rows, KeyOfSite(s)) {
      var i :| 0 <= i < |rows| && KeyOfRow(rows[i]) == KeyOfSite(s) && rows[i].status == ValueStatus.UnreachableRow;
      assert rows[i] in rows;
      var q :| q in sites && KeyOfSite(q) !in covered && rows[i] == UnreachableRow(setup, q);
      UnreachableRowShows(setup, q);
    }
  }

  lemma ShownInConcat(a: seq<Row>, b: seq<Row>, key: SiteKey)
    ensures Shown(a + b, key) <==> Shown(a, key) || Shown(b, key)
    ensures ShownUnreachable(a + b, key) <==> ShownUnreachable(a, key) || ShownUnreachable(b, key)
  {
    hide KeyOfRow;
    forall i | 0 <= i < |a| ensures (a + b)[i] == a[i] {}
    forall i | 0 <= i < |b| ensures (a + b)[|a| + i] == b[i] {}
  }

  lemma ShownUnreachableIsShown(rows: seq<Row>, key: SiteKey)
    requires ShownUnreachable(rows, key)
    ensures Shown(rows, key)
  {
  }

  lemma AllRowsShow(setup: Setup, sites: seq<Site>, index: Index, covered: set<SiteKey>, records: seq<Record>, s: Site)
    requires CoveredSet(setup, index, records, covered) && s in sites
    ensures Shown(AllRows(setup, sites, index, covered, records), KeyOfSite(s))
    ensures ShownUnreachable(AllRows(setup, sites, index, covered, records), KeyOfSite(s)) <==> KeyOfSite(s) !in covered
  {
    hide KeyOfSite, Shown, EvidenceRows, UnreachableRows, IsCovered;
    var a, b := EvidenceRows(setup, index, records), UnreachableRows(setup, sites, covered);
    ShownInConcat(a, b, KeyOfSite(s));
    UnreachableShown(setup, sites, covered, s);
    if KeyOfSite(s) in covered {
      EvidenceRowsShow(setup, index, records, KeyOfSite(s));
    } else {
      ShownUnreachableIsShown(b, KeyOfSite(s));
    }
    NoUnreachableEvidence(setup, index, records, KeyOfSite(s));
  }

  lemma NoUnreachableEvidence(setup: Setup, index: Index, records: seq<Record>, key: SiteKey)
    ensures !ShownUnreachable(EvidenceRows(setup, index, records), key)
  {
    hide RecordRow, KeyOfRow;
    forall i | 0 <= i < |records| ensures EvidenceRows(setup, index, records)[i].status != ValueStatus.UnreachableRow {
      EvidenceIsReachable(setup, index, records, i);
    }
  }

  /** The call site and the status belong to what makes a row a discovery. */
  lemma RowKeyHasSite(a: Row, b: Row)
    requires KeyOf(a) == KeyOf(b)
    ensures KeyOfRow(a) == KeyOfRow(b) && a.status == b.status
  {
  }

  lemma ShownByKeys(a: seq<Row>, b: seq<Row>, key: SiteKey)
    requires forall k :: HasKey(a, k) ==> HasKey(b, k)
    ensures Shown(a, key) ==> Shown(b, key)
    ensures ShownUnreachable(a, key) ==> ShownUnreachable(b, key)
  {
    hide KeyOf, KeyOfRow;
    forall i | 0 <= i < |a| ensures exists j :: 0 <= j < |b| && KeyOfRow(b[j]) == KeyOfRow(a[i]) && b[j].status == a[i].status {
      assert HasKey(a, KeyOf(a[i]));
      var j :| 0 <= j < |b| && KeyOf(b[j]) == KeyOf(a[i]);
      RowKeyHasSite(b[j], a[i]);
    }
  }

  lemma MarkedShows(w: A.Wrappers, rows: seq<Row>, key: SiteKey)
    ensures Shown(A.Marked(w, rows), key) <==> Shown(rows, key)
    ensures ShownUnreachable(A.Marked(w, rows), key) <==> ShownUnreachable(rows, key)
  {
    A.MarkedLength(w, rows);
    forall i | 0 <= i < |rows|
      ensures |A.Marked(w, rows)| == |rows| && KeyOfRow(A.Marked(w, rows)[i]) == KeyOfRow(rows[i])
      ensures A.Marked(w, rows)[i].status == ValueStatus.UnreachableRow <==> rows[i].status == ValueStatus.UnreachableRow
    {
      A.MarkKeeps(w, rows, i);
    }
  }

  /** What `valueflow_records_to_facts` returns. */
  ghost function Output(setup: Setup, sites: seq<Site>, index: Index, covered: set<SiteKey>, records: seq<Record>): seq<Row> {
    A.Marked(A.WrappersOf(setup.targets), Deduped(AllRows(setup, sites, index, covered, records)))
  }

  /** Every inventory site has a row in the output, and an unreachable one exactly when no record joined it. */
  lemma EverySiteIsShown(setup: Setup, sites: seq<Site>, index: Index, covered: set<SiteKey>, records: seq<Record>, s: Site)
    requires CoveredSet(setup, index, records, covered) && s in sites
    ensures Shown(Output(setup, sites, index, covered, records), KeyOfSite(s))
    ensures ShownUnreachable(Output(setup, sites, index, covered, records), KeyOfSite(s)) <==>
            !IsCovered(setup, index, records, KeyOfSite(s))
  {
    hide KeyOfSite, Shown, ShownUnreachable, AllRows, Deduped, A.Marked, IsCovered, HasKey, DistinctKeys, Merged;
    var all := AllRows(setup, sites, index, covered, records);
    AllRowsShow(setup, sites, index, covered, records, s);
    DedupeMerges(all);
    ShownByKeys(all, Deduped(all), KeyOfSite(s));
    ShownByKeys(Deduped(all), all, KeyOfSite(s));
    MarkedShows(A.WrappersOf(setup.targets), Deduped(all), KeyOfSite(s));
  }

  function RecordPaths(records: seq<Record>): int {
    if records == [] then 0 else RecordPaths(records[..|records| - 1]) + records[|records| - 1].pathCount
  }

  lemma {:induction false} TotalOfConcat(a: seq<Row>, b: seq<Row>)
    ensures TotalPaths(a + b) == TotalPaths(a) + TotalPaths(b)
  {
    if b == [] {
      assert a + b == a;
    } else {
      var last := |b| - 1;
      TotalOfConcat(a, b[..last]);
      assert (a + b)[..|a| + last] == a + b[..last];
    }
  }

  lemma {:induction false} TotalOfRows(rows: seq<Row>, records: seq<Record>)
    requires |rows| == |records| && forall i :: 0 <= i < |rows| ==> rows[i].pathCount == records[i].pathCount
    ensures TotalPaths(rows) == RecordPaths(records)
  {
    if rows != [] {
      TotalOfRows(rows[..|rows| - 1], records[..|records| - 1]);
    }
  }

  lemma {:induction false} UnreachableTotal(setup: Setup, sites: seq<Site>, covered: set<SiteKey>)
    ensures TotalPaths(UnreachableRows(setup, sites, covered)) == 0
  {
    hide KeyOfSite, UnreachableRow;
    if sites != [] {
      var before, row := UnreachableRows(setup, sites[..|sites| - 1], covered), UnreachableRow(setup, sites[|sites| - 1]);
      UnreachableTotal(setup, sites[..|sites| - 1], covered);
      UnreachableRowShows(setup, sites[|sites| - 1]);
      assert before + [] == before && (before + [row])[..|before|] == before;
    }
  }

  /** The output carries exactly the paths of the records. */
  lemma OutputKeepsPaths(setup: Setup, sites: seq<Site>, index: Index, covered: set<SiteKey>, records: seq<Record>)
    ensures TotalPaths(Output(setup, sites, index, covered, records)) == RecordPaths(records)
  {
    hide Deduped, A.CoveredBy, A.MarkRow, RecordRow, UnreachableRows;
    var a, b := EvidenceRows(setup, index, records), UnreachableRows(setup, sites, covered);
    A.MarkKeepsTotal(A.WrappersOf(setup.targets), A.CoveredBy(A.WrappersOf(setup.targets), Deduped(a + b)), Deduped(a + b));
    TotalConserved(a + b);
    TotalOfConcat(a, b);
    UnreachableTotal(setup, sites, covered);
    forall i | 0 <= i < |a| ensures a[i].pathCount == records[i].pathCount {
      EvidenceIsReachable(setup, index, records, i);
    }
    TotalOfRows(a, records);
  }

  /** Rows before deduplication: exact ones are resolved, none is an internal alias yet. */
  lemma AllRowsAreFresh(setup: Setup, sites: seq<Site>, index: Index, covered: set<SiteKey>, records: seq<Record>)
    ensures A.ExactIsResolved(AllRows(setup, sites, index, covered, records))
    ensures A.NoAliases(AllRows(setup, sites, index, covered, records))
  {
    hide RecordRow, UnreachableRow, UnreachableRows;
    var a, b := EvidenceRows(setup, index, records), UnreachableRows(setup, sites, covered);
    forall i | 0 <= i < |a| ensures a[i].status != AliasInternalRow && (a[i].status == ExactRow ==> a[i].resolution == Resolved) {
      EvidenceIsReachable(setup, index, records, i);
    }
    UnreachableRowsAre(setup, sites, covered);
    forall i | 0 <= i < |b| ensures b[i].status == ValueStatus.UnreachableRow {
      assert b[i] in b;
      var s :| s in sites && KeyOfSite(s) !in covered && b[i] == UnreachableRow(setup, s);
      UnreachableRowShows(setup, s);
    }
  }

  /** Merging takes every field but the count from a fact. */
  lemma MergeIsFact(facts: seq<Row>, rows: seq<Row>, i: nat) returns (j: nat)
    requires IsMerge(facts, rows) && i < |rows|
    ensures j < |facts| && rows[i].status == facts[j].status && rows[i].resolution == facts[j].resolution
  {
    hide KeyOf, DistinctKeys;
    var key := KeyOf(rows[i]);
    FirstHasKey(facts, key);
    j :| 0 <= j < |facts| && facts[j] == First(facts, key);
  }

  lemma MergeIsFresh(facts: seq<Row>, rows: seq<Row>)
    requires IsMerge(facts, rows) && A.ExactIsResolved(facts) && A.NoAliases(facts)
    ensures A.ExactIsResolved(rows) && A.NoAliases(rows)
  {
    hide IsMerge;
    forall i | 0 <= i < |rows|
      ensures rows[i].status != AliasInternalRow && (rows[i].status == ExactRow ==> rows[i].resolution == Resolved)
    {
      var j := MergeIsFact(facts, rows, i);
    }
  }

  /** No two rows of the output are the same discovery. */
  lemma OutputIsDistinct(setup: Setup, sites: seq<Site>, index: Index, covered: set<SiteKey>, records: seq<Record>)
    ensures DistinctKeys(Output(setup, sites, index, covered, records))
  {
    hide AllRows, Deduped, A.Marked, DistinctKeys, A.NoAliases, A.ExactIsResolved, HasKey, Merged;
    var all := AllRows(setup, sites, index, covered, records);
    AllRowsAreFresh(setup, sites, index, covered, records);
    DedupeMerges(all);
    MergeIsFresh(all, Deduped(all));
    A.MarkKeepsDistinct(A.WrappersOf(setup.targets), Deduped(all));
  }

  /** A record that gives an exact row keeps its operation and value exact in the output. */
  lemma OutputStaysExact(setup: Setup, sites: seq<Site>, index: Index, covered: set<SiteKey>, records: seq<Record>, i: nat)
    requires !A.Cyclic(A.WrappersOf(setup.targets)) && i < |records|
    requires EvidenceRows(setup, index, records)[i].status == ExactRow
    ensures A.Proved(Output(setup, sites, index, covered, records),
                     EvidenceRows(setup, index, records)[i].operation, EvidenceRows(setup, index, records)[i].value)
  {
    hide Deduped, A.Marked, DistinctKeys, A.NoAliases, A.ExactIsResolved, Merged, A.Cyclic, A.WrappersOf, RecordRow;
    var all := AllRows(setup, sites, index, covered, records);
    var row := EvidenceRows(setup, index, records)[i];
    assert all[i] == row;
    AllRowsAreFresh(setup, sites, index, covered, records);
    DedupeMerges(all);
    MergeIsFresh(all, Deduped(all));
    assert HasKey(all, KeyOf(row));
    var j :| 0 <= j < |Deduped(all)| && KeyOf(Deduped(all)[j]) == KeyOf(row);
    A.ExactSurvives(A.WrappersOf(setup.targets), Deduped(all), j);
  }

  /** Rows of uncovered sites are not exact. */
  lemma ExactIsEvidence(setup: Setup, sites: seq<Site>, index: Index, covered: set<SiteKey>, records: seq<Record>, i: nat)
    requires i < |AllRows(setup, sites, index, covered, records)| && AllRows(setup, sites, index, covered, records)[i].status == ExactRow
    ensures i < |records| == |EvidenceRows(setup, index, records)|
    ensures AllRows(setup, sites, index, covered, records)[i] == EvidenceRows(setup, index, records)[i]
  {
    hide RecordRow, UnreachableRow, UnreachableRows, KeyOfSite;
    var a, b := EvidenceRows(setup, index, records), UnreachableRows(setup, sites, covered);
    UnreachableRowsAre(setup, sites, covered);
    if i >= |a| {
      assert b[i - |a|] in b;
      var s :| s in sites && KeyOfSite(s) !in covered && b[i - |a|] == UnreachableRow(setup, s);
      UnreachableRowShows(setup, s);
    }
  }

  lemma CoveringAfterDedupe(setup: Setup, sites: seq<Site>, index: Index, covered: set<SiteKey>, records: seq<Record>,
                            w: A.Wrappers, promotable: set<string>)
    requires A.CoveringArePromoted(w, EvidenceRows(setup, index, records), promotable)
    ensures A.CoveringArePromoted(w, Deduped(AllRows(setup, sites, index, covered, records)), promotable)
  {
    hide AllRows, EvidenceRows, Deduped, KeyOf;
    var all := AllRows(setup, sites, index, covered, records);
    forall n | 0 <= n < |Deduped(all)| && Deduped(all)[n].target in w && A.Proves(Deduped(all)[n])
      ensures MayPromote(Deduped(all)[n], promotable)
    {
      var i := RowIsLeading(all, n);
      ExactIsEvidence(setup, sites, index, covered, records, i);
    }
  }

  /** The first record of a discovery that may enter the exact indexes keeps its operation and value promoted in the
      output, if wrappers are acyclic and what covers calls inside wrappers may enter the indexes itself. */
  lemma OutputPromotes(setup: Setup, sites: seq<Site>, index: Index, covered: set<SiteKey>, records: seq<Record>,
                       promotable: set<string>, i: nat)
    requires !A.Cyclic(A.WrappersOf(setup.targets))
    requires A.CoveringArePromoted(A.WrappersOf(setup.targets), EvidenceRows(setup, index, records), promotable)
    requires Leading(EvidenceRows(setup, index, records), i) && MayPromote(EvidenceRows(setup, index, records)[i], promotable)
    ensures A.Promoted(Output(setup, sites, index, covered, records), promotable,
                       EvidenceRows(setup, index, records)[i].operation, EvidenceRows(setup, index, records)[i].value)
  {
    hide Deduped, A.Marked, KeyOf, A.NoAliases, A.ExactIsResolved, Merged, A.Cyclic, A.WrappersOf, RecordRow, A.CoveringArePromoted,
         UnreachableRows, DistinctKeys;
    var all := AllRows(setup, sites, index, covered, records);
    var w := A.WrappersOf(setup.targets);
    LeadingInFront(EvidenceRows(setup, index, records), UnreachableRows(setup, sites, covered), i);
    assert all[i] == EvidenceRows(setup, index, records)[i];
    AllRowsAreFresh(setup, sites, index, covered, records);
    DedupeMerges(all);
    MergeIsFresh(all, Deduped(all));
    CoveringAfterDedupe(setup, sites, index, covered, records, w, promotable);
    var n := LeadingHasRow(all, i);
    A.PromotionSurvives(w, Deduped(all), promotable, n);
  }

  method ValueflowRecordsToFacts(setup: Setup, sites: seq<Site>, records: seq<Record>)
    returns (rows: seq<Row>, ghost index: Index, ghost covered: set<SiteKey>)
    ensures Indexes(sites, index) && CoveredSet(setup, index, records, covered)
    ensures rows == Output(setup, sites, index, covered, records)
    ensures forall s :: s in sites ==>
      Shown(rows, KeyOfSite(s)) && (ShownUnreachable(rows, KeyOfSite(s)) <==> !IsCovered(setup, index, records, KeyOfSite(s)))
    ensures DistinctKeys(rows) && TotalPaths(rows) == RecordPaths(records)
  {
    hide Indexes, CoveredSet, EvidenceRows, UnreachableRows, Deduped, A.Marked, KeyOfSite, Shown, ShownUnreachable, DistinctKeys;
    var siteIndex := MakeSiteIndex(sites);
    var evidence, keys := ReadRecords(setup, siteIndex, records);
    var missing := UnreachableFacts(setup, sites, keys);
    rows := Dedupe(evidence + missing);
    rows := A.MarkInternalAliases(setup.targets, rows);
    index, covered := siteIndex, keys;
    forall s | s in sites
      ensures Shown(rows, KeyOfSite(s)) && (ShownUnreachable(rows, KeyOfSite(s)) <==> !IsCovered(setup, index, records, KeyOfSite(s)))
    {
      EverySiteIsShown(setup, sites, index, covered, records, s);
    }
    OutputIsDistinct(setup, sites, index, covered, records);
    OutputKeepsPaths(setup, sites, index, covered, records);
  }
}
