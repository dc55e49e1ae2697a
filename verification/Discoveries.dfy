/** What `_dedupe_facts` returns, field by field: which facts are one discovery, what its row shows, and in which order. */
module Discoveries {
  import opened Orders
  import opened ValueStatus
  import opened DiscoveryRows

  // ------------------------------------------------ one discovery

  /** Two facts of one resolver are one discovery if they speak about the same argument of the same call with the same
      resource, operation, value and status, and take the value from the same source. */
  predicate SameDiscovery(a: Row, b: Row) {
    && a.resolver == b.resolver
    && a.target == b.target && a.siteFile == b.siteFile && a.siteLine == b.siteLine && a.argIndex == b.argIndex
    && a.resource == b.resource && a.operation == b.operation && a.value == b.value && a.status == b.status
    && a.sourceFile == b.sourceFile && a.sourceLine == b.sourceLine && a.sourceExpr == b.sourceExpr && a.origin == b.origin
  }

  lemma SameDiscoveryIff(a: Row, b: Row)
    ensures SameDiscovery(a, b) <==> KeyOf(a) == KeyOf(b)
  {
  }

  /** The paths of all facts of one discovery. */
  function PathsOf(facts: seq<Row>, fact: Row): int {
    if facts == [] then 0
    else
      var last := facts[|facts| - 1];
      PathsOf(facts[..|facts| - 1], fact) + if SameDiscovery(last, fact) then last.pathCount else 0
  }

  lemma {:induction false} PathsOfKey(facts: seq<Row>, fact: Row)
    ensures PathsOf(facts, fact) == Paths(facts, KeyOf(fact))
  {
    hide SameDiscovery, KeyOf;
    if facts != [] {
      PathsOfKey(facts[..|facts| - 1], fact);
      SameDiscoveryIff(facts[|facts| - 1], fact);
    }
  }

  /** Every fact has exactly one row: that of the first fact of its discovery, with the paths of all of them. */
  lemma OneRowPerDiscovery(facts: seq<Row>, i: nat) returns (n: nat, first: nat)
    requires i < |facts|
    ensures n < |Deduped(facts)| && SameDiscovery(Deduped(facts)[n], facts[i])
    ensures forall m :: 0 <= m < |Deduped(facts)| && SameDiscovery(Deduped(facts)[m], facts[i]) ==> m == n
    ensures first <= i && SameDiscovery(facts[first], facts[i])
    ensures forall j :: 0 <= j < first ==> !SameDiscovery(facts[j], facts[i])
    ensures Deduped(facts)[n] == facts[first].(pathCount := PathsOf(facts, facts[i]))
  {
    hide KeyOf, Deduped, SameDiscovery, Merged, DistinctKeys;
    var key := KeyOf(facts[i]);
    DedupeMerges(facts);
    assert HasKey(facts, key);
    assert HasKey(Deduped(facts), key);
    n :| 0 <= n < |Deduped(facts)| && KeyOf(Deduped(facts)[n]) == key;
    first := FirstLeads(facts, key);
    forall a, b ensures SameDiscovery(a, b) <==> KeyOf(a) == KeyOf(b) {
      SameDiscoveryIff(a, b);
    }
    assert first <= i by { LeadsFirst(facts, first, i); }
    OnlyRow(Deduped(facts), n, key);
    PathsOfKey(facts, facts[i]);
    RowIsMerged(facts, n, first, key);
  }

  lemma LeadsFirst(facts: seq<Row>, first: int, i: nat)
    requires Leading(facts, first) && i < |facts| && KeyOf(facts[i]) == KeyOf(facts[first])
    ensures first <= i
  {
    hide KeyOf;
  }

  lemma OnlyRow(rows: seq<Row>, n: nat, key: RowKey)
    requires DistinctKeys(rows) && n < |rows| && KeyOf(rows[n]) == key
    ensures forall m :: 0 <= m < |rows| && KeyOf(rows[m]) == key ==> m == n
  {
    hide KeyOf;
  }

  lemma RowIsMerged(facts: seq<Row>, n: nat, first: nat, key: RowKey)
    requires IsMerge(facts, Deduped(facts)) && n < |Deduped(facts)| && KeyOf(Deduped(facts)[n]) == key
    requires HasKey(facts, key) && first < |facts| && facts[first] == First(facts, key)
    ensures Deduped(facts)[n] == facts[first].(pathCount := Paths(facts, key))
  {
    hide KeyOf, Deduped;
  }

  // ------------------------------------------------ the order of the rows

  function StatusName(s: Status): string {
    match s
    case ExactRow => "EXACT"
    case UnresolvedRow => "UNRESOLVED"
    case ExternalRow => "EXTERNAL"
    case DynamicRow => "DYNAMIC"
    case NoTargetRow => "NO_TARGET"
    case UnreachableRow => "UNREACHABLE"
    case AliasInternalRow => "ALIAS_INTERNAL"
  }

  /** By file, line, argument and target of the call, then by file and line of the source, then by value and status. */
  predicate NotAfter(a: Row, b: Row) {
    if a.siteFile != b.siteFile then StrLeq(a.siteFile, b.siteFile)
    else if a.siteLine != b.siteLine then a.siteLine < b.siteLine
    else if a.argIndex != b.argIndex then a.argIndex < b.argIndex
    else if a.target != b.target then StrLeq(a.target, b.target)
    else SourceNotAfter(a, b)
  }

  predicate SourceNotAfter(a: Row, b: Row) {
    if a.sourceFile != b.sourceFile then StrLeq(a.sourceFile, b.sourceFile)
    else if a.sourceLine != b.sourceLine then a.sourceLine < b.sourceLine
    else if a.value != b.value then StrLeq(a.value, b.value)
    else StrLeq(StatusName(a.status), StatusName(b.status))
  }

  function NameOfRank(n: nat): string {
    match n
    case 0 => "ALIAS_INTERNAL"
    case 1 => "DYNAMIC"
    case 2 => "EXACT"
    case 3 => "EXTERNAL"
    case 4 => "NO_TARGET"
    case 5 => "UNREACHABLE"
    case _ => "UNRESOLVED"
  }

  lemma NextName(n: nat)
    requires n < 6
    ensures StrLeq(NameOfRank(n), NameOfRank(n + 1)) && !StrLeq(NameOfRank(n + 1), NameOfRank(n))
  {
    hide StrLeq;
    var a, b, d := NameOfRank(n), NameOfRank(n + 1), if n == 2 then 2 else if n == 5 then 4 else 0;
    assert a[..d] == if n == 2 then "EX" else if n == 5 then "UNRE" else "";
    assert b[..d] == if n == 2 then "EX" else if n == 5 then "UNRE" else "";
    LessAt(a, b, d);
  }

  lemma {:induction false} NamesRise(m: nat, n: nat)
    requires m < n <= 6
    ensures StrLeq(NameOfRank(m), NameOfRank(n)) && !StrLeq(NameOfRank(n), NameOfRank(m))
  {
    hide StrLeq, NameOfRank;
    StrLeqTotalOrder();
    NextName(n - 1);
    if m < n - 1 {
      NamesRise(m, n - 1);
    }
  }

  lemma NameIsOfRank(s: Status)
    ensures 0 <= StatusRank(s) <= 6 && StatusName(s) == NameOfRank(StatusRank(s))
  {
  }

  lemma RanksAreAlphabetical(a: Status, b: Status)
    ensures StatusRank(a) <= StatusRank(b) <==> StrLeq(StatusName(a), StatusName(b))
    ensures StatusRank(a) == StatusRank(b) <==> StatusName(a) == StatusName(b)
  {
    hide StrLeq, NameOfRank, StatusRank, StatusName;
    NameIsOfRank(a);
    NameIsOfRank(b);
    StrLeqTotalOrder();
    if StatusRank(a) < StatusRank(b) {
      NamesRise(StatusRank(a), StatusRank(b));
    } else if StatusRank(b) < StatusRank(a) {
      NamesRise(StatusRank(b), StatusRank(a));
    }
  }

  lemma FirstPart(a: seq<Part>, b: seq<Part>)
    requires a != [] && b != []
    ensures PartsLeq(a, b) <==> if a[0] == b[0] then PartsLeq(a[1..], b[1..]) else PartLeq(a[0], b[0])
  {
  }

  lemma SourceNotAfterIff(a: Row, b: Row)
    ensures PartsLeq(SortKey(a)[4..], SortKey(b)[4..]) <==> SourceNotAfter(a, b)
  {
    hide PartsLeq, StrLeq, StatusRank, StatusName;
    var s, t := SortKey(a), SortKey(b);
    RanksAreAlphabetical(a.status, b.status);
    PartsFrom(s, t, 4);
    PartsFrom(s, t, 5);
    PartsFrom(s, t, 6);
    PartsFrom(s, t, 7);
    NothingAfter(s, t);
  }

  lemma NotAfterIff(a: Row, b: Row)
    ensures RowLeq(a, b) <==> NotAfter(a, b)
  {
    hide PartsLeq, StrLeq, StatusRank, SourceNotAfter;
    var s, t := SortKey(a), SortKey(b);
    SourceNotAfterIff(a, b);
    PartsFrom(s, t, 0);
    PartsFrom(s, t, 1);
    PartsFrom(s, t, 2);
    PartsFrom(s, t, 3);
  }

  lemma PartsFrom(s: seq<Part>, t: seq<Part>, k: nat)
    requires k < |s| == |t|
    ensures PartsLeq(s[k..], t[k..]) <==> if s[k] == t[k] then PartsLeq(s[k + 1..], t[k + 1..]) else PartLeq(s[k], t[k])
    ensures s[0..] == s && t[0..] == t
  {
    FirstPart(s[k..], t[k..]);
    assert s[k..][1..] == s[k + 1..] && t[k..][1..] == t[k + 1..];
  }

  lemma NothingAfter(s: seq<Part>, t: seq<Part>)
    ensures PartsLeq(s[|s|..], t[|t|..])
  {
  }

  lemma InsertedAt(r: Row, rows: seq<Row>) returns (k: nat)
    ensures k <= |rows| && Insert(r, rows) == rows[..k] + [r] + rows[k..]
    ensures forall m :: 0 <= m < k ==> !RowLeq(r, rows[m])
  {
    hide RowLeq;
    k := 0;
    if rows != [] && !RowLeq(r, rows[0]) {
      k := InsertedAt(r, rows[1..]);
      k := k + 1;
      assert rows == [rows[0]] + rows[1..];
      assert forall m :: 1 <= m < k ==> rows[m] == rows[1..][m - 1];
    }
  }

  /** `at[k]` is where row `k` of the sorted list stood; rows that tie keep their order. */
  ghost predicate StablyFrom(rows: seq<Row>, sorted: seq<Row>, at: seq<nat>) {
    && |at| == |sorted| == |rows|
    && (forall k :: 0 <= k < |at| ==> at[k] < |rows| && sorted[k] == rows[at[k]])
    && (forall k, l :: 0 <= k < l < |at| ==> at[k] != at[l])
    && (forall k, l :: 0 <= k < l < |at| && RowLeq(sorted[l], sorted[k]) ==> at[k] < at[l])
  }

  lemma {:induction false} SortIsStable(rows: seq<Row>) returns (at: seq<nat>)
    ensures StablyFrom(rows, StableSort(rows), at)
  {
    hide RowLeq, StablyFrom;
    if rows == [] {
      at := [];
      NothingMoves();
    } else {
      var before := SortIsStable(rows[1..]);
      var k := InsertedAt(rows[0], StableSort(rows[1..]));
      at := OneMore(rows, StableSort(rows[1..]), before, k);
    }
  }

  lemma NothingMoves()
    ensures StablyFrom([], [], [])
  {
  }

  function Shifted(before: seq<nat>, k: nat): (at: seq<nat>)
    requires k <= |before|
    ensures |at| == |before| + 1 && at[k] == 0
    ensures forall m :: 0 <= m < k ==> at[m] == before[m] + 1
    ensures forall m :: k < m < |at| ==> at[m] == before[m - 1] + 1
  {
    seq(|before| + 1, m requires 0 <= m <= |before| =>
      if m < k then before[m] + 1 else if m == k then 0 else before[m - 1] + 1)
  }

  /** `r` stands at `k` among the elements of `sorted`. */
  ghost predicate PutAt(r: Row, sorted: seq<Row>, k: nat, all: seq<Row>) {
    && k <= |sorted| && |all| == |sorted| + 1 && all[k] == r
    && (forall m :: 0 <= m < k ==> all[m] == sorted[m])
    && (forall m :: k < m < |all| ==> all[m] == sorted[m - 1])
  }

  lemma OneMore(rows: seq<Row>, sorted: seq<Row>, before: seq<nat>, k: nat) returns (at: seq<nat>)
    requires rows != [] && StablyFrom(rows[1..], sorted, before) && k <= |sorted|
    requires forall m :: 0 <= m < k ==> !RowLeq(rows[0], sorted[m])
    ensures StablyFrom(rows, sorted[..k] + [rows[0]] + sorted[k..], at)
  {
    hide RowLeq, Shifted, PutAt;
    at := Shifted(before, k);
    var all := sorted[..k] + [rows[0]] + sorted[k..];
    assert PutAt(rows[0], sorted, k, all) by { Spliced(rows[0], sorted, k); }
    ShiftedFrom(rows, sorted, before, k, all);
    forall m, l | 0 <= m < l < |at| ensures at[m] != at[l] {
      DistinctShift(before, k, m, l);
    }
    forall m, l | 0 <= m < l < |at| && RowLeq(all[l], all[m]) ensures at[m] < at[l] {
      ShiftedTie(rows[0], sorted, before, k, all, m, l);
    }
  }

  lemma Spliced(r: Row, sorted: seq<Row>, k: nat)
    requires k <= |sorted|
    ensures PutAt(r, sorted, k, sorted[..k] + [r] + sorted[k..])
  {
  }

  lemma ShiftedFrom(rows: seq<Row>, sorted: seq<Row>, before: seq<nat>, k: nat, all: seq<Row>)
    requires rows != [] && |before| == |sorted| == |rows| - 1 && PutAt(rows[0], sorted, k, all)
    requires forall m :: 0 <= m < |before| ==> before[m] < |rows| - 1 && sorted[m] == rows[1..][before[m]]
    ensures forall m :: 0 <= m < |all| ==> Shifted(before, k)[m] < |rows| && all[m] == rows[Shifted(before, k)[m]]
  {
    hide Shifted;
  }

  lemma ShiftedTie(r: Row, sorted: seq<Row>, before: seq<nat>, k: nat, all: seq<Row>, m: nat, l: nat)
    requires |before| == |sorted| && PutAt(r, sorted, k, all) && m < l < |all| && RowLeq(all[l], all[m])
    requires forall i, j :: 0 <= i < j < |before| && RowLeq(sorted[j], sorted[i]) ==> before[i] < before[j]
    requires forall i :: 0 <= i < k ==> !RowLeq(r, sorted[i])
    ensures Shifted(before, k)[m] < Shifted(before, k)[l]
  {
    hide Shifted, RowLeq;
  }

  lemma DistinctShift(before: seq<nat>, k: nat, m: nat, l: nat)
    requires k <= |before| && m < l <= |before| && forall i, j :: 0 <= i < j < |before| ==> before[i] != before[j]
    ensures Shifted(before, k)[m] != Shifted(before, k)[l]
  {
    hide Shifted;
  }

  /** The rows come in the order of call, argument, source, value and status. */
  lemma RowsInOrder(facts: seq<Row>, n: nat)
    requires 0 < n < |Deduped(facts)|
    ensures NotAfter(Deduped(facts)[n - 1], Deduped(facts)[n])
  {
    hide Deduped, RowLeq, NotAfter, IsMerge;
    DedupeMerges(facts);
    NotAfterIff(Deduped(facts)[n - 1], Deduped(facts)[n]);
  }

  lemma {:induction false} KeysInOrder(facts: seq<Row>, a: nat, b: nat, i: nat, j: nat)
    requires a < b < |KeyList(facts)|
    requires Leading(facts, i) && KeyOf(facts[i]) == KeyList(facts)[a]
    requires Leading(facts, j) && KeyOf(facts[j]) == KeyList(facts)[b]
    ensures i < j
  {
    hide KeyOf;
    var before, last := facts[..|facts| - 1], |facts| - 1;
    KeyListIs(before);
    assert facts == before + [facts[last]];
    if b < |KeyList(before)| {
      LeadsBefore(facts, i, KeyList(before)[a]);
      LeadsBefore(facts, j, KeyList(before)[b]);
      KeysInOrder(before, a, b, i, j);
    } else {
      LeadsBefore(facts, i, KeyList(before)[a]);
      LastLeads(facts, j);
    }
  }

  /** A key of the earlier facts leads among those. */
  lemma LeadsBefore(facts: seq<Row>, i: nat, key: RowKey)
    requires facts != [] && Leading(facts, i) && KeyOf(facts[i]) == key && HasKey(facts[..|facts| - 1], key)
    ensures i < |facts| - 1 && Leading(facts[..|facts| - 1], i)
  {
    hide KeyOf;
  }

  lemma LastLeads(facts: seq<Row>, j: nat)
    requires facts != [] && Leading(facts, j) && !HasKey(facts[..|facts| - 1], KeyOf(facts[j]))
    ensures j == |facts| - 1
  {
    hide KeyOf;
    assert forall k :: 0 <= k < |facts| - 1 ==> facts[..|facts| - 1][k] == facts[k];
  }

  lemma MergedAt(facts: seq<Row>, a: nat, i: nat)
    requires a < |KeyList(facts)| && Leading(facts, i) && SameDiscovery(MergedRows(facts)[a], facts[i])
    ensures KeyOf(facts[i]) == KeyList(facts)[a]
  {
    hide KeyOf, SameDiscovery, KeyList, Merged;
    KeyListIs(facts);
    KeyOfMerged(facts, KeyList(facts)[a]);
    SameDiscoveryIff(MergedRows(facts)[a], facts[i]);
  }

  /** Rows that tie come in the order of the first facts of their discoveries. */
  lemma TiesKeepOrder(facts: seq<Row>, m: nat, n: nat, i: nat, j: nat)
    requires m < n < |Deduped(facts)| && NotAfter(Deduped(facts)[n], Deduped(facts)[m])
    requires Leading(facts, i) && SameDiscovery(Deduped(facts)[m], facts[i])
    requires Leading(facts, j) && SameDiscovery(Deduped(facts)[n], facts[j])
    ensures i < j
  {
    hide RowLeq, NotAfter, SameDiscovery, KeyOf, Merged, KeyList;
    KeyListIs(facts);
    NotAfterIff(Deduped(facts)[n], Deduped(facts)[m]);
    var at := SortIsStable(MergedRows(facts));
    MergedAt(facts, at[m], i);
    MergedAt(facts, at[n], j);
    KeysInOrder(facts, at[m], at[n], i, j);
  }
}
