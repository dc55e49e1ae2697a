/** What the rows of `valueflow_records_to_facts` show, in terms of records, inventory sites and targets. */
module RowContents {
  import opened Wrappers
  import opened ValueStatus
  import opened DiscoveryRows
  import opened Evidence
  import opened Classification

  // ------------------------------------------------ which site a record joins

  /** Site `k` is a call of the target at that line. */
  predicate SiteAt(sites: seq<Site>, target: string, file: string, line: int, k: int) {
    0 <= k < |sites| && sites[k].target == target && sites[k].file == file && sites[k].line == line
  }

  /** Among them, one for the argument; -1 stands for any. */
  predicate SiteFor(sites: seq<Site>, target: string, file: string, line: int, argIndex: int, k: int) {
    SiteAt(sites, target, file, line, k) && (argIndex == -1 || sites[k].argIndex == argIndex)
  }

  ghost predicate FirstSiteFor(sites: seq<Site>, target: string, file: string, line: int, argIndex: int, k: int) {
    && SiteFor(sites, target, file, line, argIndex, k)
    && forall j :: 0 <= j < k ==> !SiteFor(sites, target, file, line, argIndex, j)
  }

  /** The one site of the call, if there is exactly one, and it is for a known argument. */
  ghost predicate OnlySiteAt(sites: seq<Site>, target: string, file: string, line: int, k: int) {
    && SiteAt(sites, target, file, line, k) && sites[k].argIndex != -1
    && forall j :: SiteAt(sites, target, file, line, j) ==> j == k
  }

  lemma {:induction false} FirstUnder(sites: seq<Site>, target: string, file: string, line: int, argIndex: int) returns (k: int)
    ensures var list := SitesUnder(sites, SiteKey(target, file, line, argIndex));
      if list == [] then forall j :: !SiteFor(sites, target, file, line, argIndex, j)
      else FirstSiteFor(sites, target, file, line, argIndex, k) && list[0] == sites[k]
  {
    k := 0;
    if sites != [] {
      var init, last, key := sites[..|sites| - 1], sites[|sites| - 1], SiteKey(target, file, line, argIndex);
      k := FirstUnder(init, target, file, line, argIndex);
      SitesUnderSnoc(sites, key);
      UnderIs(last, target, file, line, argIndex);
      SiteForBefore(sites, target, file, line, argIndex);
      if SitesUnder(init, key) == [] {
        k := |sites| - 1;
      }
    }
  }

  lemma UnderIs(s: Site, target: string, file: string, line: int, argIndex: int)
    ensures var here := s.target == target && s.file == file && s.line == line;
      |Evidence.Under(s, SiteKey(target, file, line, argIndex))| ==
        if !here then 0
        else (if s.argIndex == argIndex then 1 else 0) + (if argIndex == -1 then 1 else 0)
    ensures forall q :: q in Evidence.Under(s, SiteKey(target, file, line, argIndex)) ==> q == s
  {
  }

  lemma SiteForBefore(sites: seq<Site>, target: string, file: string, line: int, argIndex: int)
    requires sites != []
    ensures forall k :: k < |sites| - 1 ==>
      (SiteFor(sites, target, file, line, argIndex, k) <==> SiteFor(sites[..|sites| - 1], target, file, line, argIndex, k))
  {
  }

  /** How many entries the position has: sites for unknown arguments are entered twice. */
  lemma {:induction false} OneUnder(sites: seq<Site>, target: string, file: string, line: int) returns (k: int)
    ensures var list := SitesUnder(sites, SiteKey(target, file, line, -1));
      && (|list| == 1 ==> OnlySiteAt(sites, target, file, line, k) && list[0] == sites[k])
      && (|list| != 1 ==> forall j :: !OnlySiteAt(sites, target, file, line, j))
      && (list == [] <==> forall j :: !SiteAt(sites, target, file, line, j))
  {
    k := 0;
    if sites != [] {
      var init, last, n, key := sites[..|sites| - 1], sites[|sites| - 1], |sites| - 1, SiteKey(target, file, line, -1);
      k := OneUnder(init, target, file, line);
      SitesUnderSnoc(sites, key);
      UnderIs(last, target, file, line, -1);
      assert forall j :: j < n ==> (SiteAt(sites, target, file, line, j) <==> SiteAt(init, target, file, line, j));
      assert forall j :: j < n ==> (SiteAt(sites, target, file, line, j) ==> sites[j] == init[j]);
      assert SiteAt(sites, target, file, line, n) <==> last.target == target && last.file == file && last.line == line;
      if |SitesUnder(init, key)| == 0 {
        k := n;
      } else {
        var first := SomeAt(init, target, file, line);
        assert SiteAt(sites, target, file, line, first);
        OnlyBefore(sites, target, file, line, first);
      }
    }
  }

  lemma SomeAt(sites: seq<Site>, target: string, file: string, line: int) returns (k: int)
    requires exists j :: SiteAt(sites, target, file, line, j)
    ensures SiteAt(sites, target, file, line, k)
  {
    k :| SiteAt(sites, target, file, line, k);
  }

  lemma OnlyBefore(sites: seq<Site>, target: string, file: string, line: int, first: int)
    requires sites != [] && SiteAt(sites[..|sites| - 1], target, file, line, first)
    ensures forall k :: OnlySiteAt(sites, target, file, line, k) <==>
      OnlySiteAt(sites[..|sites| - 1], target, file, line, k) && !SiteAt(sites, target, file, line, |sites| - 1)
  {
    var init := sites[..|sites| - 1];
    assert SiteAt(sites, target, file, line, first);
    forall k | OnlySiteAt(sites, target, file, line, k)
      ensures OnlySiteAt(init, target, file, line, k) && !SiteAt(sites, target, file, line, |sites| - 1)
    {
      forall j | SiteAt(init, target, file, line, j) ensures j == k {
        assert SiteAt(sites, target, file, line, j);
      }
    }
    forall k | OnlySiteAt(init, target, file, line, k) && !SiteAt(sites, target, file, line, |sites| - 1)
      ensures OnlySiteAt(sites, target, file, line, k)
    {
      forall j | SiteAt(sites, target, file, line, j) ensures j == k {
        assert SiteAt(init, target, file, line, j);
      }
    }
  }

  /** A record joins the first site for its argument; if there is none, the only site of its call; otherwise none. */
  lemma JoinIs(sites: seq<Site>, index: Index, target: string, file: string, line: int, argIndex: int)
    requires Indexes(sites, index)
    ensures forall k :: FirstSiteFor(sites, target, file, line, argIndex, k) ==>
      Join(index, target, file, line, argIndex) == Some(sites[k])
    ensures (forall j :: !SiteFor(sites, target, file, line, argIndex, j)) ==>
      && (forall k :: OnlySiteAt(sites, target, file, line, k) ==> Join(index, target, file, line, argIndex) == Some(sites[k]))
      && ((forall k :: !OnlySiteAt(sites, target, file, line, k)) ==> Join(index, target, file, line, argIndex) == None)
    ensures (exists j :: SiteFor(sites, target, file, line, argIndex, j)) ==>
      exists k :: FirstSiteFor(sites, target, file, line, argIndex, k)
  {
    hide Indexes, SitesUnder, SiteFor, SiteAt;
    var key, position := SiteKey(target, file, line, argIndex), SiteKey(target, file, line, -1);
    Looked(sites, index, key);
    Looked(sites, index, position);
    var first := FirstUnder(sites, target, file, line, argIndex);
    var only := OneUnder(sites, target, file, line);
    assert forall k :: FirstSiteFor(sites, target, file, line, argIndex, k) && SitesUnder(sites, key) != [] ==> k == first by {
      FirstIsOne(sites, target, file, line, argIndex, first);
    }
    InRange(sites, target, file, line, argIndex);
  }

  lemma Looked(sites: seq<Site>, index: Index, key: SiteKey)
    requires Indexes(sites, index)
    ensures (key in index <==> SitesUnder(sites, key) != []) && (key in index ==> index[key] == SitesUnder(sites, key))
  {
  }

  lemma FirstIsOne(sites: seq<Site>, target: string, file: string, line: int, argIndex: int, first: int)
    ensures FirstSiteFor(sites, target, file, line, argIndex, first) ==>
      forall k :: FirstSiteFor(sites, target, file, line, argIndex, k) ==> k == first
  {
  }

  lemma InRange(sites: seq<Site>, target: string, file: string, line: int, argIndex: int)
    ensures forall k :: SiteFor(sites, target, file, line, argIndex, k) ==> SiteAt(sites, target, file, line, k) && 0 <= k < |sites|
    ensures forall k :: SiteAt(sites, target, file, line, k) ==> 0 <= k < |sites|
  {
  }

  // ------------------------------------------------ what a record's row shows

  /** The name of a node label: what stands behind its last closing bracket. */
  ghost predicate NameOf(caller: string, name: string) {
    ']' !in name && (caller == name || exists before :: caller == before + "]" + name)
  }

  lemma {:induction false} AfterBracketIs(s: string)
    ensures NameOf(s, AfterBracket(s))
  {
    if s != [] && s[|s| - 1] != ']' {
      var init, last := s[..|s| - 1], s[|s| - 1];
      AfterBracketIs(init);
      assert s == init + [last];
      if before :| init == before + "]" + AfterBracket(init) {
        assert s == before + "]" + AfterBracket(s);
      }
    } else if s != [] {
      assert s == s[..|s| - 1] + "]" + "";
    }
  }

  /** `reachability` for a call in the process or outside it, by the function `caller`. */
  predicate Reaches(roots: Option<Roots>, inProcess: bool, caller: string, reachability: string) {
    match roots
    case None => reachability == "UNKNOWN"
    case Some(r) =>
      && (!inProcess <==> reachability == "OUT_OF_PROCESS_SCOPE")
      && (inProcess && caller != "" && caller in r.direct <==> reachability == "DIRECT_ROOT")
      && (inProcess && caller != "" && caller !in r.direct && caller in r.reachable <==> reachability == "CALLBACK")
      && (inProcess && (caller == "" || (caller !in r.direct && caller !in r.reachable)) ==>
            reachability == if r.state in {"ROOT_PARSE_FAILURE", "NO_PROCESS_ROOT"} then r.state else "UNREACHABLE_IN_PROCESS")
  }

  lemma ReachabilityIs(roots: Option<Roots>, inProcess: bool, caller: string)
    ensures Reaches(roots, inProcess, caller, Reachability(roots, inProcess, caller))
  {
  }

  /** The resource that the targets name. */
  predicate IsResource(setup: Setup, target: string, resource: Resource) {
    resource == if target in setup.targets then setup.targets[target].resource else NoResource
  }

  /** The operation of the joined site; for one that opens under a lock, what the lock stands for. */
  predicate IsOperation(setup: Setup, site: Option<Site>, operation: string) {
    match site
    case None => operation == ""
    case Some(s) => operation == if s.operation == "OPEN_LOCK" then setup.lock(s.auxLock) else s.operation
  }

  /** The metadata of the fact, the name of the calling function, and for a semantic wrapper what it stands for. */
  ghost predicate IsMetadata(setup: Setup, r: Record, operation: string, metadata: map<string, string>) {
    var wrapper := r.target in setup.targets && setup.targets[r.target].wrapper;
    && "enclosing_function" in metadata && NameOf(r.site.caller, metadata["enclosing_function"])
    && (wrapper ==>
          && "site_role" in metadata && metadata["site_role"] == "WRAPPER_CALL"
          && "canonical_target" in metadata && metadata["canonical_target"] == setup.targets[r.target].canonical
          && "canonical_operation" in metadata && metadata["canonical_operation"] == operation)
    && forall key :: key != "enclosing_function"
                     && (wrapper ==> key !in {"site_role", "canonical_target", "canonical_operation"}) ==>
         (key in metadata <==> key in r.fact.metadata) && (key in metadata ==> metadata[key] == r.fact.metadata[key])
  }

  /** The row of a record that joined `site`. */
  ghost predicate RowOf(setup: Setup, r: Record, site: Option<Site>, row: Row) {
    && row.resolver == "valueflow" && row.target == r.target
    && row.siteFile == setup.relative(r.site.file) && row.siteLine == r.site.line
    && row.argIndex == (if site.Some? then site.value.argIndex else r.argIndex)
    && row.expression == (if site.Some? then site.value.expression else r.fact.sourceExpr)
    && IsResource(setup, r.target, row.resource) && IsOperation(setup, site, row.operation)
    && row.sourceFile == setup.relative(r.fact.sourceFile) && row.sourceLine == r.fact.sourceLine
    && row.sourceExpr == r.fact.sourceExpr && row.origin == r.fact.origin && row.resolvedBy == r.fact.resolvedBy
    && row.linkMethod == r.fact.linkMethod && row.pathCount == r.pathCount
    && row.inProcess == (site.Some? ==> site.value.inProcess)
    && (if r.fact.linkMethod == "LOCAL_BACKWALK" then row.reachability == "LOCAL_BACKWALK"
        else Reaches(setup.roots, row.inProcess, r.site.caller, row.reachability))
    && IsMetadata(setup, r, row.operation, row.metadata)
  }

  /** The status of the row is decided by all alternatives for the argument. */
  ghost predicate Decided(setup: Setup, records: seq<Record>, r: Record, row: Row) {
    var t := setup.text;
    && (row.status == NoTargetRow <==> row.resource == NoResource)
    && (row.status == ExternalRow <==> row.resource != NoResource && AllExternal(t, records, r))
    && (row.status == DynamicRow <==> row.resource != NoResource && RunsOverSet(t, records, r))
    && (row.status == ExactRow <==>
          Promotable(setup.syntax, row.resource, row.operation, r.fact.value) && OneLiteral(t, records, r))
    && row.status in {NoTargetRow, ExternalRow, DynamicRow, ExactRow, UnresolvedRow}
    && row.value == (if row.resource == NoResource || IsNoTarget(r.fact) then "" else r.fact.value)
    && (row.resolution == Runtime <==> RunsOverSet(t, records, r))
    && (row.resolution == Resolved <==> OneLiteral(t, records, r))
    && (row.resolution == External <==> AllExternal(t, records, r))
  }

  lemma MetadataIs(setup: Setup, r: Record, operation: string)
    ensures IsMetadata(setup, r, operation, RowMetadata(setup, r, operation))
  {
    hide NameOf, AfterBracket;
    AfterBracketIs(r.site.caller);
  }

  lemma RowShows(setup: Setup, r: Record, site: Option<Site>, info: Info)
    ensures RowOf(setup, r, site, RecordRow(setup, r, site, info))
  {
    hide IsMetadata, RowMetadata, Reaches, Reachability, RowStatus;
    var row := RecordRow(setup, r, site, info);
    MetadataIs(setup, r, row.operation);
    ReachabilityIs(setup.roots, row.inProcess, r.site.caller);
  }

  /** Row `i` of the evidence is that of record `i`. */
  lemma EvidenceRowIs(setup: Setup, index: Index, records: seq<Record>, i: nat)
    requires i < |records|
    ensures var r, row := records[i], EvidenceRows(setup, index, records)[i];
      && RowOf(setup, r, Join(index, r.target, setup.relative(r.site.file), r.site.line, r.argIndex), row)
      && Decided(setup, records, r, row)
  {
    hide RowOf, Join, GroupKey, InfoOf, OneLiteral, RunsOverSet, AllExternal, RowStatus, Reachability, RowMetadata, Promotable;
    var r := records[i];
    var site := JoinRecord(setup, index, r);
    var info := InfoOf(setup.text, records, GroupKey(setup.text, r));
    RowShows(setup, r, site, info);
    StatusIff(setup.text, records, r);
    RowIs(setup.text, setup.syntax, records, r, RecordRow(setup, r, site, info).resource, RecordRow(setup, r, site, info).operation);
  }

  // ------------------------------------------------ what the row of a site without evidence shows

  predicate MissingRow(setup: Setup, s: Site, row: Row) {
    && row.resolver == "valueflow" && row.target == s.target && row.siteFile == s.file && row.siteLine == s.line
    && row.argIndex == s.argIndex && row.expression == s.expression && IsResource(setup, s.target, row.resource)
    && row.value == "" && row.operation == s.operation
    && row.sourceFile == s.file && row.sourceLine == s.line && row.sourceExpr == s.expression && row.origin == OtherOrigin("")
    && row.resolvedBy == "" && row.linkMethod == "" && row.pathCount == 0 && row.status == ValueStatus.UnreachableRow
    && row.inProcess == s.inProcess && Reaches(setup.roots, s.inProcess, "", row.reachability)
    && row.metadata == map["source_role" := "TARGET_FALLBACK", "trace_complete" := "False",
                           "termination_reason" := "UNREACHABLE_TARGET"]
    && row.resolution == Unresolved && row.setId == ""
  }

  /** The key of a site. */
  predicate Keyed(s: Site, key: SiteKey) {
    s.target == key.target && s.file == key.file && s.line == key.line && s.argIndex == key.argIndex
  }

  /** Each site whose key no record covers has its row, in inventory order, and there are no others. */
  lemma {:induction false} MissingRowsAre(setup: Setup, sites: seq<Site>, covered: set<SiteKey>) returns (at: seq<nat>)
    ensures |at| == |UnreachableRows(setup, sites, covered)|
    ensures forall n :: 0 <= n < |at| ==> at[n] < |sites| && MissingRow(setup, sites[at[n]], UnreachableRows(setup, sites, covered)[n])
    ensures forall m, n :: 0 <= m < n < |at| ==> at[m] < at[n]
    ensures forall k: nat :: k in at <==> k < |sites| && forall key :: key in covered ==> !Keyed(sites[k], key)
  {
    hide MissingRow, Keyed, KeyOfSite, Evidence.UnreachableRow;
    at := [];
    if sites != [] {
      var init, n := sites[..|sites| - 1], |sites| - 1;
      at := MissingRowsAre(setup, init, covered);
      assert forall k :: 0 <= k < n ==> init[k] == sites[k];
      KeyedIff(sites[n], covered);
      if KeyOfSite(sites[n]) !in covered {
        MissingRowIs(setup, sites[n]);
        at := at + [n];
      }
    }
  }

  lemma KeyedIff(s: Site, covered: set<SiteKey>)
    ensures KeyOfSite(s) !in covered <==> forall key :: key in covered ==> !Keyed(s, key)
  {
    assert Keyed(s, KeyOfSite(s));
    assert forall key :: Keyed(s, key) ==> key == KeyOfSite(s);
  }

  lemma MissingRowIs(setup: Setup, s: Site)
    ensures MissingRow(setup, s, Evidence.UnreachableRow(setup, s))
  {
    hide Reaches, Reachability;
    ReachabilityIs(setup.roots, s.inProcess, "");
  }
}
