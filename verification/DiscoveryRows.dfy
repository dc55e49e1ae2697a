/** `_dedupe_facts`: identical rows merge, their path counts add up. */
module DiscoveryRows {
  import opened Orders
  import opened ValueStatus

  datatype Row = Row(
    resolver: string, target: string, siteFile: string, siteLine: int, argIndex: int, expression: string,
    resource: Resource, value: string, operation: string, sourceFile: string, sourceLine: int, sourceExpr: string,
    origin: Origin, resolvedBy: string, linkMethod: string, pathCount: int, status: Status, inProcess: bool,
    reachability: string, metadata: map<string, string>, resolution: Kind, setId: string)

  /** What makes two rows the same discovery. */
  datatype RowKey = RowKey(
    resolver: string, target: string, siteFile: string, siteLine: int, argIndex: int, resource: Resource, value: string,
    operation: string, sourceFile: string, sourceLine: int, sourceExpr: string, origin: Origin, status: Status)

  function KeyOf(r: Row): RowKey {
    RowKey(r.resolver, r.target, r.siteFile, r.siteLine, r.argIndex, r.resource, r.value, r.operation, r.sourceFile,
           r.sourceLine, r.sourceExpr, r.origin, r.status)
  }

  /** The reachabilities that promote, given the root state of the run. */
  function PromotableReach(rootState: string): set<string> {
    {"DIRECT_ROOT", "CALLBACK", "UNKNOWN"} + if rootState == "OK" then {"LOCAL_BACKWALK"} else {}
  }

  /** Rows that may enter the exact indexes: exact, in the process, and reached from a proven root. */
  predicate MayPromote(r: Row, promotable: set<string>) {
    r.status == ExactRow && r.inProcess && r.reachability in promotable
  }

  // ------------------------------------------------ the order of the output

  datatype Part = Word(text: string) | Number(value: int)

  predicate PartLeq(a: Part, b: Part) {
    match (a, b)
    case (Word(s), Word(t)) => StrLeq(s, t)
    case (Number(m), Number(n)) => m <= n
    case (Word(_), Number(_)) => true
    case (Number(_), Word(_)) => false
  }

  /** Tuples compare component by component. */
  predicate PartsLeq(a: seq<Part>, b: seq<Part>) {
    a == [] || (b != [] && (if a[0] == b[0] then PartsLeq(a[1..], b[1..]) else PartLeq(a[0], b[0])))
  }

  /** The status names in alphabetical order. */
  function StatusRank(s: Status): int {
    match s
    case AliasInternalRow => 0
    case DynamicRow => 1
    case ExactRow => 2
    case ExternalRow => 3
    case NoTargetRow => 4
    case UnreachableRow => 5
    case UnresolvedRow => 6
  }

  function SortKey(r: Row): seq<Part> {
    [Word(r.siteFile), Number(r.siteLine), Number(r.argIndex), Word(r.target), Word(r.sourceFile), Number(r.sourceLine),
     Word(r.value), Number(StatusRank(r.status))]
  }

  predicate RowLeq(a: Row, b: Row) {
    PartsLeq(SortKey(a), SortKey(b))
  }

  lemma {:induction false} PartsLeqConnected(a: seq<Part>, b: seq<Part>)
    ensures PartsLeq(a, b) || PartsLeq(b, a)
  {
    if a != [] && b != [] {
      if a[0] == b[0] {
        PartsLeqConnected(a[1..], b[1..]);
      } else if a[0].Word? && b[0].Word? {
        StrLeqConnected(a[0].text, b[0].text);
      }
    }
  }

  ghost predicate InOrder(rows: seq<Row>) {
    forall i :: 0 < i < |rows| ==> RowLeq(rows[i - 1], rows[i])
  }

  function Insert(r: Row, rows: seq<Row>): seq<Row> {
    if rows == [] || RowLeq(r, rows[0]) then [r] + rows else [rows[0]] + Insert(r, rows[1..])
  }

  /** `sorted(rows, key=SortKey)`; it is stable. */
  function StableSort(rows: seq<Row>): seq<Row> {
    if rows == [] then [] else Insert(rows[0], StableSort(rows[1..]))
  }

  lemma {:induction false} InsertInOrder(r: Row, rows: seq<Row>)
    requires InOrder(rows)
    ensures InOrder(Insert(r, rows))
    ensures Insert(r, rows)[0] == r || (rows != [] && Insert(r, rows)[0] == rows[0])
  {
    hide RowLeq;
    if rows != [] && !RowLeq(r, rows[0]) {
      RowLeqConnected(r, rows[0]);
      assert InOrder(rows[1..]) by {
        assert forall i :: 0 < i < |rows[1..]| ==> rows[1..][i] == rows[i + 1] && rows[1..][i - 1] == rows[i];
      }
      InsertInOrder(r, rows[1..]);
    }
  }

  lemma RowLeqConnected(a: Row, b: Row)
    ensures RowLeq(a, b) || RowLeq(b, a)
  {
    PartsLeqConnected(SortKey(a), SortKey(b));
  }

  lemma {:induction false} SortInOrder(rows: seq<Row>)
    ensures InOrder(StableSort(rows))
  {
    hide RowLeq;
    if rows != [] {
      SortInOrder(rows[1..]);
      InsertInOrder(rows[0], StableSort(rows[1..]));
    }
  }

  lemma {:induction false} SortedStays(rows: seq<Row>)
    requires InOrder(rows)
    ensures StableSort(rows) == rows
  {
    hide RowLeq;
    if rows != [] {
      assert InOrder(rows[1..]) by {
        assert forall i :: 0 < i < |rows[1..]| ==> rows[1..][i] == rows[i + 1] && rows[1..][i - 1] == rows[i];
      }
      SortedStays(rows[1..]);
      assert |rows| > 1 ==> RowLeq(rows[0], rows[1]);
    }
  }

  // ------------------------------------------------ merging

  /** Sum of the path counts of the rows with `key`. */
  function Paths(rows: seq<Row>, key: RowKey): int {
    if rows == [] then 0
    else Paths(rows[..|rows| - 1], key) + if KeyOf(rows[|rows| - 1]) == key then rows[|rows| - 1].pathCount else 0
  }

  function TotalPaths(rows: seq<Row>): int {
    if rows == [] then 0 else TotalPaths(rows[..|rows| - 1]) + rows[|rows| - 1].pathCount
  }

  predicate HasKey(rows: seq<Row>, key: RowKey) {
    exists i :: 0 <= i < |rows| && KeyOf(rows[i]) == key
  }

  /** The first row with `key`. */
  function First(rows: seq<Row>, key: RowKey): Row
    requires HasKey(rows, key)
  {
    if KeyOf(rows[0]) == key then rows[0]
    else
      assert HasKey(rows[1..], key) by {
        var i :| 0 <= i < |rows| && KeyOf(rows[i]) == key;
        assert rows[1..][i - 1] == rows[i];
      }
      First(rows[1..], key)
  }

  ghost predicate DistinctKeys(rows: seq<Row>) {
    forall i, j :: 0 <= i < j < |rows| ==> KeyOf(rows[i]) != KeyOf(rows[j])
  }

  /** The row for `key`: the first one's fields and all the path counts. */
  function Merged(facts: seq<Row>, key: RowKey): Row
    requires HasKey(facts, key)
  {
    First(facts, key).(pathCount := Paths(facts, key))
  }

  /** `rows` has one row per key of `facts`, merged, and nothing else. */
  ghost predicate IsMerge(facts: seq<Row>, rows: seq<Row>) {
    && DistinctKeys(rows)
    && (forall k :: HasKey(facts, k) <==> HasKey(rows, k))
    && (forall i :: 0 <= i < |rows| ==> HasKey(facts, KeyOf(rows[i])) && rows[i] == Merged(facts, KeyOf(rows[i])))
  }

  lemma {:induction false} FirstHasKey(rows: seq<Row>, key: RowKey)
    requires HasKey(rows, key)
    ensures KeyOf(First(rows, key)) == key && First(rows, key) in rows
  {
    if KeyOf(rows[0]) != key {
      assert HasKey(rows[1..], key) by {
        var i :| 0 <= i < |rows| && KeyOf(rows[i]) == key;
        assert rows[1..][i - 1] == rows[i];
      }
      FirstHasKey(rows[1..], key);
    }
  }

  /** The keys in the order of their first rows. */
  function KeyList(facts: seq<Row>): seq<RowKey> {
    if facts == [] then []
    else
      var before := facts[..|facts| - 1];
      var key := KeyOf(facts[|facts| - 1]);
      KeyList(before) + if HasKey(before, key) then [] else [key]
  }

  lemma {:induction false} KeyListIs(facts: seq<Row>)
    ensures forall k :: k in KeyList(facts) <==> HasKey(facts, k)
    ensures NoDuplicates(KeyList(facts))
  {
    if facts != [] {
      var before := facts[..|facts| - 1];
      var last := facts[|facts| - 1];
      KeyListIs(before);
      HasKeySnoc(before, last);
      assert facts == before + [last];
    }
  }

  lemma HasKeySnoc(before: seq<Row>, last: Row)
    ensures forall k :: HasKey(before + [last], k) <==> HasKey(before, k) || KeyOf(last) == k
  {
    forall k | HasKey(before, k) || KeyOf(last) == k ensures HasKey(before + [last], k) {
      if HasKey(before, k) {
        var i :| 0 <= i < |before| && KeyOf(before[i]) == k;
        assert (before + [last])[i] == before[i];
      } else {
        assert (before + [last])[|before|] == last;
      }
    }
  }

  lemma {:induction false} FirstSnoc(before: seq<Row>, last: Row, key: RowKey)
    requires HasKey(before, key) || KeyOf(last) == key
    ensures HasKey(before + [last], key)
    ensures First(before + [last], key) == if HasKey(before, key) then First(before, key) else last
  {
    hide KeyOf;
    HasKeySnoc(before, last);
    if before != [] && KeyOf(before[0]) != key {
      assert (before + [last])[1..] == before[1..] + [last];
      assert HasKey(before, key) <==> HasKey(before[1..], key) by {
        HasKeyCons(before, key);
      }
      FirstSnoc(before[1..], last, key);
    } else if before != [] {
      assert KeyOf(before[0]) == key;
    }
  }

  lemma HasKeyCons(rows: seq<Row>, key: RowKey)
    requires rows != []
    ensures HasKey(rows, key) <==> KeyOf(rows[0]) == key || HasKey(rows[1..], key)
  {
    hide KeyOf;
    if HasKey(rows, key) && KeyOf(rows[0]) != key {
      var i :| 0 <= i < |rows| && KeyOf(rows[i]) == key;
      assert rows[1..][i - 1] == rows[i];
    }
    if HasKey(rows[1..], key) {
      var i :| 0 <= i < |rows| - 1 && KeyOf(rows[1..][i]) == key;
      assert rows[i + 1] == rows[1..][i];
    }
  }

  lemma {:induction false} NoKeyNoPaths(rows: seq<Row>, key: RowKey)
    requires !HasKey(rows, key)
    ensures Paths(rows, key) == 0
  {
    hide KeyOf;
    if rows != [] {
      var before := rows[..|rows| - 1];
      HasKeySnoc(before, rows[|rows| - 1]);
      assert rows == before + [rows[|rows| - 1]];
      NoKeyNoPaths(before, key);
    }
  }

  /** The merged row of a key after one more fact. */
  lemma MergedSnoc(before: seq<Row>, last: Row, key: RowKey)
    requires HasKey(before, key) || KeyOf(last) == key
    ensures HasKey(before + [last], key)
    ensures Merged(before + [last], key) ==
            if !HasKey(before, key) then last
            else if KeyOf(last) == key then Merged(before, key).(pathCount := Merged(before, key).pathCount + last.pathCount)
            else Merged(before, key)
  {
    hide KeyOf;
    FirstSnoc(before, last, key);
    assert (before + [last])[..|before + [last]| - 1] == before;
    if !HasKey(before, key) {
      NoKeyNoPaths(before, key);
    }
  }

  /** The merged rows in the order in which a dictionary keeps them. */
  function MergedRows(facts: seq<Row>): seq<Row> {
    KeyListIs(facts);
    seq(|KeyList(facts)|, i requires 0 <= i < |KeyList(facts)| => Merged(facts, KeyList(facts)[i]))
  }

  /** The rows that `_dedupe_facts` returns. */
  function Deduped(facts: seq<Row>): seq<Row> {
    StableSort(MergedRows(facts))
  }

  ghost predicate MergedInto(facts: seq<Row>, merged: map<RowKey, Row>) {
    forall k :: (k in merged <==> HasKey(facts, k)) && (k in merged ==> merged[k] == Merged(facts, k))
  }

  lemma MergedIntoSnoc(before: seq<Row>, last: Row, merged: map<RowKey, Row>)
    requires MergedInto(before, merged)
    ensures var key := KeyOf(last);
      MergedInto(before + [last], merged[key := if key !in merged then last else
                                                merged[key].(pathCount := merged[key].pathCount + last.pathCount)])
  {
    hide KeyOf, HasKey, Merged;
    var key := KeyOf(last);
    var merged' := merged[key := if key !in merged then last else
                                 merged[key].(pathCount := merged[key].pathCount + last.pathCount)];
    HasKeySnoc(before, last);
    forall k | k in merged' ensures HasKey(before + [last], k) && merged'[k] == Merged(before + [last], k) {
      MergedSnoc(before, last, k);
    }
  }

  method Dedupe(facts: seq<Row>) returns (rows: seq<Row>)
    ensures rows == Deduped(facts)
  {
    hide KeyOf, HasKey, Merged, StableSort;
    var order: seq<RowKey>, merged: map<RowKey, Row> := [], map[];
    NothingMerged();
    var n := 0;
    while n < |facts|
      invariant 0 <= n <= |facts|
      invariant order == KeyList(facts[..n]) && MergedInto(facts[..n], merged)
    {
      var fact := facts[n];
      var key := KeyOf(fact);
      assert facts[..n + 1] == facts[..n] + [fact] && facts[..n + 1][..n] == facts[..n];
      MergedIntoSnoc(facts[..n], fact, merged);
      if key !in merged {
        order, merged := order + [key], merged[key := fact];
      } else {
        merged := merged[key := merged[key].(pathCount := merged[key].pathCount + fact.pathCount)];
      }
      n := n + 1;
    }
    assert facts[..n] == facts;
    KeyListIs(facts);
    var values := seq(|order|, i requires 0 <= i < |order| && order[i] in merged => merged[order[i]]);
    assert values == MergedRows(facts);
    rows := StableSort(values);
  }

  lemma NothingMerged()
    ensures MergedInto([], map[]) && KeyList([]) == [] && MergedRows([]) == []
  {
  }

  // ------------------------------------------------ what deduplication keeps

  lemma {:induction false} KeyOfMerged(facts: seq<Row>, key: RowKey)
    requires HasKey(facts, key)
    ensures KeyOf(Merged(facts, key)) == key
  {
    FirstHasKey(facts, key);
  }

  lemma MergedRowsAreMerge(facts: seq<Row>)
    ensures IsMerge(facts, MergedRows(facts))
  {
    hide KeyOf, HasKey, Merged, KeyList;
    KeyListIs(facts);
    var rows, keys := MergedRows(facts), KeyList(facts);
    forall i | 0 <= i < |rows| ensures HasKey(facts, keys[i]) && KeyOf(rows[i]) == keys[i] {
      KeyOfMerged(facts, keys[i]);
    }
    assert forall i, j :: 0 <= i < j < |rows| ==> keys[i] != keys[j];
    forall k ensures HasKey(facts, k) <==> HasKey(rows, k) {
      HasKeyIffListed(rows, keys, k);
    }
  }

  lemma HasKeyIffListed(rows: seq<Row>, keys: seq<RowKey>, k: RowKey)
    requires |rows| == |keys| && forall i :: 0 <= i < |rows| ==> KeyOf(rows[i]) == keys[i]
    ensures HasKey(rows, k) <==> k in keys
  {
    hide KeyOf;
  }

  lemma {:induction false} InsertElements(r: Row, rows: seq<Row>)
    ensures forall x :: x in Insert(r, rows) <==> x == r || x in rows
    ensures TotalPaths(Insert(r, rows)) == r.pathCount + TotalPaths(rows)
  {
    hide RowLeq;
    if rows == [] || RowLeq(r, rows[0]) {
      TotalCons(r, rows);
    } else {
      InsertElements(r, rows[1..]);
      TotalCons(rows[0], Insert(r, rows[1..]));
      TotalCons(rows[0], rows[1..]);
      assert rows == [rows[0]] + rows[1..];
    }
  }

  lemma {:induction false} TotalCons(r: Row, rows: seq<Row>)
    ensures TotalPaths([r] + rows) == r.pathCount + TotalPaths(rows)
  {
    if rows == [] {
      assert [r] + rows == [r];
      assert TotalPaths([r]) == TotalPaths([]) + r.pathCount;
    } else {
      var before := rows[..|rows| - 1];
      TotalCons(r, before);
      assert ([r] + rows)[..|rows|] == [r] + before;
    }
  }

  lemma {:induction false} SortElements(rows: seq<Row>)
    ensures forall x :: x in StableSort(rows) <==> x in rows
    ensures TotalPaths(StableSort(rows)) == TotalPaths(rows)
  {
    if rows != [] {
      SortElements(rows[1..]);
      InsertElements(rows[0], StableSort(rows[1..]));
      TotalCons(rows[0], rows[1..]);
      assert rows == [rows[0]] + rows[1..];
    }
  }

  ghost predicate FreshKey(r: Row, rows: seq<Row>) {
    forall x :: x in rows ==> KeyOf(x) != KeyOf(r)
  }

  lemma ConsDistinct(r: Row, rows: seq<Row>)
    requires DistinctKeys(rows) && FreshKey(r, rows)
    ensures DistinctKeys([r] + rows)
  {
    hide KeyOf;
    var all := [r] + rows;
    forall i, j | 0 <= i < j < |all| ensures KeyOf(all[i]) != KeyOf(all[j]) {
      assert all[j] == rows[j - 1] && rows[j - 1] in rows;
    }
  }

  lemma TailDistinct(rows: seq<Row>)
    requires DistinctKeys(rows) && rows != []
    ensures DistinctKeys(rows[1..]) && FreshKey(rows[0], rows[1..])
  {
    hide KeyOf;
    forall x | x in rows[1..] ensures KeyOf(x) != KeyOf(rows[0]) {
      var i :| 0 <= i < |rows| - 1 && rows[1..][i] == x;
      assert rows[i + 1] == x;
    }
    assert forall i :: 0 <= i < |rows| - 1 ==> rows[1..][i] == rows[i + 1];
  }

  lemma {:induction false} InsertDistinct(r: Row, rows: seq<Row>)
    requires DistinctKeys(rows) && FreshKey(r, rows)
    ensures DistinctKeys(Insert(r, rows))
  {
    hide KeyOf, RowLeq, DistinctKeys;
    if rows == [] || RowLeq(r, rows[0]) {
      ConsDistinct(r, rows);
    } else {
      TailDistinct(rows);
      InsertDistinct(r, rows[1..]);
      InsertElements(r, rows[1..]);
      ConsDistinct(rows[0], Insert(r, rows[1..]));
    }
  }

  lemma {:induction false} SortDistinct(rows: seq<Row>)
    requires DistinctKeys(rows)
    ensures DistinctKeys(StableSort(rows))
  {
    hide KeyOf, DistinctKeys;
    if rows != [] {
      TailDistinct(rows);
      SortDistinct(rows[1..]);
      SortElements(rows[1..]);
      InsertDistinct(rows[0], StableSort(rows[1..]));
    } else {
      EmptyDistinct();
    }
  }

  lemma EmptyDistinct()
    ensures DistinctKeys([])
  {
  }

  lemma HasKeyByElements(a: seq<Row>, b: seq<Row>, k: RowKey)
    requires forall x :: x in a <==> x in b
    ensures HasKey(a, k) <==> HasKey(b, k)
  {
    hide KeyOf;
    if HasKey(a, k) {
      var i :| 0 <= i < |a| && KeyOf(a[i]) == k;
      assert a[i] in b;
    }
    if HasKey(b, k) {
      var i :| 0 <= i < |b| && KeyOf(b[i]) == k;
      assert b[i] in a;
    }
  }

  /** The output has exactly one row per discovery: the fields of its first fact and the sum of all its path
      counts, in the output order. */
  lemma DedupeMerges(facts: seq<Row>)
    ensures IsMerge(facts, Deduped(facts)) && InOrder(Deduped(facts))
  {
    hide KeyOf, HasKey, Merged, RowLeq, MergedRows, StableSort;
    var rows, sorted := MergedRows(facts), Deduped(facts);
    MergedRowsAreMerge(facts);
    SortInOrder(rows);
    SortElements(rows);
    SortDistinct(rows);
    forall k ensures HasKey(facts, k) <==> HasKey(sorted, k) {
      HasKeyByElements(rows, sorted, k);
    }
    forall i | 0 <= i < |sorted| ensures HasKey(facts, KeyOf(sorted[i])) && sorted[i] == Merged(facts, KeyOf(sorted[i])) {
      assert sorted[i] in rows;
    }
  }

  /** No earlier row is the same discovery. */
  ghost predicate Leading(rows: seq<Row>, i: int) {
    0 <= i < |rows| && forall j :: 0 <= j < i ==> KeyOf(rows[j]) != KeyOf(rows[i])
  }

  lemma LeadingInFront(a: seq<Row>, b: seq<Row>, i: int)
    requires i < |a|
    ensures Leading(a, i) <==> Leading(a + b, i)
  {
    hide KeyOf;
    assert forall j :: 0 <= j < |a| ==> (a + b)[j] == a[j];
  }

  lemma {:induction false} FirstLeads(rows: seq<Row>, key: RowKey) returns (i: nat)
    requires HasKey(rows, key)
    ensures Leading(rows, i) && KeyOf(rows[i]) == key && rows[i] == First(rows, key)
  {
    hide KeyOf;
    if KeyOf(rows[0]) == key {
      i := 0;
    } else {
      assert HasKey(rows[1..], key) by {
        var k :| 0 <= k < |rows| && KeyOf(rows[k]) == key;
        assert rows[1..][k - 1] == rows[k];
      }
      i := FirstLeads(rows[1..], key);
      i := i + 1;
      forall j | 0 <= j < i ensures KeyOf(rows[j]) != KeyOf(rows[i]) {
        if j > 0 { assert rows[1..][j - 1] == rows[j]; }
      }
    }
  }

  lemma LeadingUnique(rows: seq<Row>, i: int, j: int)
    requires Leading(rows, i) && Leading(rows, j) && KeyOf(rows[i]) == KeyOf(rows[j])
    ensures i == j
  {
    hide KeyOf;
  }

  /** Every row of the output is the first fact of its discovery, with another count. */
  lemma RowIsLeading(facts: seq<Row>, n: nat) returns (i: nat)
    requires n < |Deduped(facts)|
    ensures Leading(facts, i) && Deduped(facts)[n] == facts[i].(pathCount := Deduped(facts)[n].pathCount)
  {
    hide KeyOf, Deduped;
    DedupeMerges(facts);
    i := FirstLeads(facts, KeyOf(Deduped(facts)[n]));
  }

  /** The first fact of every discovery is in the output. */
  lemma LeadingHasRow(facts: seq<Row>, i: nat) returns (n: nat)
    requires Leading(facts, i)
    ensures n < |Deduped(facts)| && Deduped(facts)[n] == facts[i].(pathCount := Deduped(facts)[n].pathCount)
  {
    hide KeyOf, Deduped;
    DedupeMerges(facts);
    assert HasKey(facts, KeyOf(facts[i]));
    assert HasKey(Deduped(facts), KeyOf(facts[i]));
    n :| 0 <= n < |Deduped(facts)| && KeyOf(Deduped(facts)[n]) == KeyOf(facts[i]);
    var j := FirstLeads(facts, KeyOf(facts[i]));
    LeadingUnique(facts, i, j);
  }

  /** One row per key makes its count the key's paths. */
  lemma {:induction false} DistinctPaths(rows: seq<Row>, i: nat)
    requires DistinctKeys(rows) && i < |rows|
    ensures Paths(rows, KeyOf(rows[i])) == rows[i].pathCount
  {
    hide KeyOf;
    var before := rows[..|rows| - 1];
    if i == |rows| - 1 {
      NoKeyNoPaths(before, KeyOf(rows[i]));
    } else {
      DistinctPaths(before, i);
    }
  }

  /** No path of any discovery is lost or counted twice. */
  lemma PathsConserved(facts: seq<Row>, key: RowKey)
    ensures Paths(Deduped(facts), key) == Paths(facts, key)
  {
    hide KeyOf, HasKey, First, Deduped, Paths;
    DedupeMerges(facts);
    if HasKey(facts, key) {
      PathsOfRow(facts, Deduped(facts), key);
    } else {
      NoKeyNoPaths(facts, key);
      NoKeyNoPaths(Deduped(facts), key);
    }
  }

  lemma PathsOfRow(facts: seq<Row>, rows: seq<Row>, key: RowKey)
    requires IsMerge(facts, rows) && HasKey(rows, key)
    ensures Paths(rows, key) == Paths(facts, key)
  {
    hide KeyOf, First, Paths;
    var i :| 0 <= i < |rows| && KeyOf(rows[i]) == key;
    DistinctPaths(rows, i);
    assert rows[i] == Merged(facts, key);
  }

  lemma {:induction false} TotalUpdate(rows: seq<Row>, j: nat, r: Row)
    requires j < |rows|
    ensures TotalPaths(rows[j := r]) == TotalPaths(rows) - rows[j].pathCount + r.pathCount
  {
    var last := |rows| - 1;
    if j < last {
      TotalUpdate(rows[..last], j, r);
      assert rows[j := r][..last] == rows[..last][j := r];
    } else {
      assert rows[j := r][..last] == rows[..last];
    }
  }

  /** One more fact either adds its row at the end or adds to the count of one row. */
  lemma MergedRowsSnoc(before: seq<Row>, last: Row) returns (j: nat)
    ensures HasKey(before, KeyOf(last)) ==>
      && j < |MergedRows(before)|
      && MergedRows(before + [last]) ==
         MergedRows(before)[j := MergedRows(before)[j].(pathCount := MergedRows(before)[j].pathCount + last.pathCount)]
    ensures !HasKey(before, KeyOf(last)) ==> MergedRows(before + [last]) == MergedRows(before) + [last]
  {
    hide KeyOf, HasKey, Merged;
    var facts, key := before + [last], KeyOf(last);
    assert facts[..|facts| - 1] == before;
    KeyListIs(before);
    KeyListIs(facts);
    MergedSnoc(before, last, key);
    forall i | 0 <= i < |KeyList(before)| && KeyList(before)[i] != key ensures MergedRows(facts)[i] == MergedRows(before)[i] {
      MergedSnoc(before, last, KeyList(before)[i]);
    }
    j := 0;
    if HasKey(before, key) {
      j :| 0 <= j < |KeyList(before)| && KeyList(before)[j] == key;
    }
  }

  lemma {:induction false} MergedTotal(facts: seq<Row>)
    ensures TotalPaths(MergedRows(facts)) == TotalPaths(facts)
  {
    hide KeyOf, HasKey, MergedRows;
    if facts == [] {
      NothingMerged();
    } else {
      var before, last := facts[..|facts| - 1], facts[|facts| - 1];
      assert facts == before + [last];
      var rows := MergedRows(before);
      MergedTotal(before);
      var j := MergedRowsSnoc(before, last);
      if HasKey(before, KeyOf(last)) {
        TotalUpdate(rows, j, rows[j].(pathCount := rows[j].pathCount + last.pathCount));
      } else {
        assert (rows + [last])[..|rows|] == rows;
      }
    }
  }

  /** The total number of paths is preserved. */
  lemma TotalConserved(facts: seq<Row>)
    ensures TotalPaths(Deduped(facts)) == TotalPaths(facts)
  {
    MergedTotal(facts);
    SortElements(MergedRows(facts));
  }

  lemma {:induction false} DistinctKeyList(rows: seq<Row>)
    requires DistinctKeys(rows)
    ensures KeyList(rows) == seq(|rows|, i requires 0 <= i < |rows| => KeyOf(rows[i]))
  {
    hide KeyOf;
    if rows != [] {
      DistinctKeyList(rows[..|rows| - 1]);
    }
  }

  lemma {:induction false} DistinctFirst(rows: seq<Row>, i: nat)
    requires DistinctKeys(rows) && i < |rows|
    ensures HasKey(rows, KeyOf(rows[i])) && First(rows, KeyOf(rows[i])) == rows[i]
  {
    hide KeyOf;
    if i > 0 {
      TailDistinct(rows);
      DistinctFirst(rows[1..], i - 1);
    }
  }

  lemma DistinctMergedRows(rows: seq<Row>)
    requires DistinctKeys(rows)
    ensures MergedRows(rows) == rows
  {
    hide KeyOf, DistinctKeys, First;
    DistinctKeyList(rows);
    KeyListIs(rows);
    forall i | 0 <= i < |rows| ensures MergedRows(rows)[i] == rows[i] {
      DistinctFirst(rows, i);
      DistinctPaths(rows, i);
    }
  }

  /** Deduplicating twice changes nothing. */
  lemma DedupeIdempotent(facts: seq<Row>)
    ensures Deduped(Deduped(facts)) == Deduped(facts)
  {
    hide KeyOf, HasKey, Merged, RowLeq, MergedRows, StableSort, DistinctKeys;
    DedupeMerges(facts);
    DistinctMergedRows(Deduped(facts));
    SortedStays(Deduped(facts));
  }
}
