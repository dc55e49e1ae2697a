/** `_mark_internal_wrapper_aliases`: a wrapper's own call of its target is not promoted a second time. */
module WrapperAliases {
  import opened ValueStatus
  import opened DiscoveryRows

  /** A target of the specification; `canonical` names what a semantic wrapper stands for. */
  datatype Target = Target(resource: Resource, wrapper: bool, canonical: string)

  type Wrappers = map<string, string>

  datatype AliasKey = AliasKey(wrapper: string, canonical: string, operation: string, value: string)

  function WrappersOf(targets: map<string, Target>): Wrappers {
    map name | name in targets && targets[name].wrapper && targets[name].canonical != "" :: targets[name].canonical
  }

  /** What a covering row has to be: exact and resolved, wherever it is and whatever reaches it. */
  predicate Proves(r: Row) {
    r.status == ExactRow && r.resolution == Resolved
  }

  /** Values that a call of a wrapper already makes exact. */
  function CoveredBy(w: Wrappers, rows: seq<Row>): set<AliasKey> {
    set r | r in rows && r.target in w && Proves(r) :: AliasKey(r.target, w[r.target], r.operation, r.value)
  }

  function Enclosing(r: Row): string {
    Get(r.metadata, "enclosing_function")
  }

  function MarkRow(w: Wrappers, covered: set<AliasKey>, r: Row): Row {
    var e := Enclosing(r);
    if e !in w || r.target != w[e] then r
    else
      var metadata := r.metadata["site_role" := "WRAPPER_IMPLEMENTATION"];
      if AliasKey(e, w[e], r.operation, r.value) in covered && r.status == ExactRow then
        r.(status := AliasInternalRow, metadata := metadata["alias_internal" := "True"])
      else r.(metadata := metadata)
  }

  function Marked(w: Wrappers, rows: seq<Row>): seq<Row> {
    seq(|rows|, i requires 0 <= i < |rows| => MarkRow(w, CoveredBy(w, rows), rows[i]))
  }

  // ------------------------------------------------ what marking does to a row

  /** `name` is a semantic wrapper of `canonical`. */
  predicate StandsFor(targets: map<string, Target>, name: string, canonical: string) {
    name in targets && targets[name].wrapper && targets[name].canonical == canonical != ""
  }

  /** The function that the call is in, "" if the row does not say. */
  predicate IsIn(r: Row, caller: string) {
    caller == if "enclosing_function" in r.metadata then r.metadata["enclosing_function"] else ""
  }

  /** The row is a wrapper's own call of what it stands for. */
  ghost predicate InsideWrapper(targets: map<string, Target>, r: Row) {
    exists caller :: IsIn(r, caller) && StandsFor(targets, caller, r.target)
  }

  /** A call of that wrapper proves the same operation and value. */
  ghost predicate CoveredByCall(targets: map<string, Target>, rows: seq<Row>, r: Row) {
    && InsideWrapper(targets, r)
    && exists q :: q in rows && IsIn(r, q.target) && q.status == ExactRow && q.resolution == Resolved
         && q.operation == r.operation && q.value == r.value
  }

  /** `m` is `r` after marking: an exact row that is covered becomes an internal alias, a row inside a wrapper says so, and
      nothing else changes. */
  ghost predicate MarkedAs(targets: map<string, Target>, rows: seq<Row>, r: Row, m: Row) {
    var alias := r.status == ExactRow && CoveredByCall(targets, rows, r);
    && m == r.(status := m.status, metadata := m.metadata)
    && m.status == (if alias then AliasInternalRow else r.status)
    && m.metadata ==
       if !InsideWrapper(targets, r) then r.metadata
       else if alias then r.metadata["site_role" := "WRAPPER_IMPLEMENTATION"]["alias_internal" := "True"]
       else r.metadata["site_role" := "WRAPPER_IMPLEMENTATION"]
  }

  lemma WrappersAre(targets: map<string, Target>, name: string, canonical: string)
    ensures name in WrappersOf(targets) && WrappersOf(targets)[name] == canonical <==> StandsFor(targets, name, canonical)
  {
  }

  lemma InsideIff(targets: map<string, Target>, r: Row)
    ensures var w, e := WrappersOf(targets), Enclosing(r);
      InsideWrapper(targets, r) <==> e in w && r.target == w[e]
  {
    hide WrappersOf;
    assert forall caller :: IsIn(r, caller) <==> caller == Enclosing(r);
    WrappersAre(targets, Enclosing(r), r.target);
    if Enclosing(r) in WrappersOf(targets) {
      WrappersAre(targets, Enclosing(r), WrappersOf(targets)[Enclosing(r)]);
    }
  }

  lemma CoveredIff(targets: map<string, Target>, rows: seq<Row>, r: Row)
    requires InsideWrapper(targets, r)
    ensures AliasKey(Enclosing(r), r.target, r.operation, r.value) in CoveredBy(WrappersOf(targets), rows)
      <==> CoveredByCall(targets, rows, r)
  {
    hide WrappersOf;
    var w, e := WrappersOf(targets), Enclosing(r);
    InsideIff(targets, r);
    if AliasKey(e, r.target, r.operation, r.value) in CoveredBy(w, rows) {
      var q :| q in rows && q.target in w && Proves(q)
               && AliasKey(q.target, w[q.target], q.operation, q.value) == AliasKey(e, r.target, r.operation, r.value);
    }
    if CoveredByCall(targets, rows, r) {
      var q :| q in rows && q.target == e && q.status == ExactRow && q.resolution == Resolved
               && q.operation == r.operation && q.value == r.value;
      assert AliasKey(q.target, w[q.target], q.operation, q.value) in CoveredBy(w, rows);
    }
  }

  lemma MarkRowIs(targets: map<string, Target>, rows: seq<Row>, r: Row)
    ensures MarkedAs(targets, rows, r, MarkRow(WrappersOf(targets), CoveredBy(WrappersOf(targets), rows), r))
  {
    hide WrappersOf, CoveredBy, InsideWrapper, CoveredByCall;
    InsideIff(targets, r);
    if InsideWrapper(targets, r) {
      CoveredIff(targets, rows, r);
    } else {
      NotCovered(targets, rows, r);
    }
  }

  lemma NotCovered(targets: map<string, Target>, rows: seq<Row>, r: Row)
    requires !InsideWrapper(targets, r)
    ensures !CoveredByCall(targets, rows, r)
  {
  }

  method MarkInternalAliases(targets: map<string, Target>, rows: seq<Row>) returns (output: seq<Row>)
    ensures output == Marked(WrappersOf(targets), rows)
    ensures |output| == |rows|
    ensures forall i :: 0 <= i < |rows| ==> MarkedAs(targets, rows, rows[i], output[i])
  {
    hide CoveredBy, WrappersOf;
    var w := WrappersOf(targets);
    var covered := CoveredBy(w, rows);
    output := [];
    for n := 0 to |rows|
      invariant output == Marked(w, rows)[..n]
    {
      var row := rows[n];
      var e := Enclosing(row);
      if e !in w || row.target != w[e] {
        output := output + [row];
      } else {
        var metadata := row.metadata["site_role" := "WRAPPER_IMPLEMENTATION"];
        if AliasKey(e, w[e], row.operation, row.value) in covered && row.status == ExactRow {
          output := output + [row.(status := AliasInternalRow, metadata := metadata["alias_internal" := "True"])];
        } else {
          output := output + [row.(metadata := metadata)];
        }
      }
    }
    forall i | 0 <= i < |rows| ensures MarkedAs(targets, rows, rows[i], output[i]) {
      MarkRowIs(targets, rows, rows[i]);
    }
  }

  // ------------------------------------------------ what marking keeps

  /** Each name after the first is a wrapper of the one before it. */
  ghost predicate Chain(w: Wrappers, c: seq<string>) {
    forall i :: 0 < i < |c| ==> c[i] in w && w[c[i]] == c[i - 1]
  }

  ghost predicate Cycle(w: Wrappers, c: seq<string>) {
    Chain(w, c) && |c| > 1 && c[0] == c[|c| - 1]
  }

  ghost predicate Cyclic(w: Wrappers) {
    exists c :: Cycle(w, c)
  }

  /** Some exact row has the operation and value. */
  ghost predicate Proved(rows: seq<Row>, operation: string, value: string) {
    exists i :: 0 <= i < |rows| && Proves(rows[i]) && rows[i].operation == operation && rows[i].value == value
  }

  /** Some row with the operation and value may enter the exact indexes. */
  ghost predicate Promoted(rows: seq<Row>, promotable: set<string>, operation: string, value: string) {
    exists i :: 0 <= i < |rows| && MayPromote(rows[i], promotable) && rows[i].operation == operation && rows[i].value == value
  }

  ghost predicate ExactIsResolved(rows: seq<Row>) {
    forall i :: 0 <= i < |rows| && rows[i].status == ExactRow ==> rows[i].resolution == Resolved
  }

  /** The rows that cover others may enter the exact indexes themselves. */
  ghost predicate CoveringArePromoted(w: Wrappers, rows: seq<Row>, promotable: set<string>) {
    forall i :: 0 <= i < |rows| && rows[i].target in w && Proves(rows[i]) ==> MayPromote(rows[i], promotable)
  }

  lemma RepeatCloses(w: Wrappers, c: seq<string>, e: string)
    requires Chain(w, c) && c != [] && e in w && w[e] == c[|c| - 1] && e in c
    ensures Cyclic(w)
  {
    var k :| 0 <= k < |c| && c[k] == e;
    assert Cycle(w, c[k..] + [e]);
  }

  lemma NoRepeat(w: Wrappers, c: seq<string>, e: string)
    requires Chain(w, c) && c != [] && e in w && w[e] == c[|c| - 1] && !Cyclic(w)
    ensures e !in c && Chain(w, c + [e])
  {
    hide Cyclic;
    if e in c {
      RepeatCloses(w, c, e);
    }
  }

  /** A marked row leads along wrappers of wrappers to a row with the same operation and value that stays exact. */
  lemma {:induction false} Survivor(w: Wrappers, rows: seq<Row>, c: seq<string>, i: nat) returns (j: nat)
    requires !Cyclic(w) && ExactIsResolved(rows) && i < |rows| && rows[i].status == ExactRow
    requires Chain(w, c) && c != [] && c[|c| - 1] == rows[i].target
    ensures j < |rows| && rows[j].status == ExactRow && rows[j].operation == rows[i].operation && rows[j].value == rows[i].value
    ensures MarkRow(w, CoveredBy(w, rows), rows[j]).status == ExactRow
    ensures j == i || rows[j].target in w
    decreases w.Keys - (set x | x in c[1..])
  {
    hide Cyclic, Chain, CoveredBy, MarkRow;
    j := i;
    if MarkRow(w, CoveredBy(w, rows), rows[i]).status != ExactRow {
      var e := Enclosing(rows[i]);
      j := Coverer(w, rows, rows[i]);
      NoRepeat(w, c, e);
      var d := c + [e];
      assert d[1..] == c[1..] + [e];
      assert e in d[1..] && e !in c[1..];
      assert (set x | x in d[1..]) == (set x | x in c[1..]) + {e};
      j := Survivor(w, rows, d, j);
    }
  }

  lemma Coverer(w: Wrappers, rows: seq<Row>, r: Row) returns (j: nat)
    requires r.status == ExactRow && MarkRow(w, CoveredBy(w, rows), r).status != ExactRow
    ensures j < |rows| && rows[j].status == ExactRow && rows[j].target == Enclosing(r)
    ensures rows[j].operation == r.operation && rows[j].value == r.value
    ensures Enclosing(r) in w && w[Enclosing(r)] == r.target
  {
    var e := Enclosing(r);
    assert AliasKey(e, w[e], r.operation, r.value) in CoveredBy(w, rows);
    var q :| q in rows && q.target in w && Proves(q)
             && AliasKey(q.target, w[q.target], q.operation, q.value) == AliasKey(e, w[e], r.operation, r.value);
    j :| 0 <= j < |rows| && rows[j] == q;
  }

  /** An exact value stays exact, although perhaps only outside the process. */
  lemma ExactSurvives(w: Wrappers, rows: seq<Row>, i: nat)
    requires !Cyclic(w) && ExactIsResolved(rows) && i < |rows| && rows[i].status == ExactRow
    ensures Proved(Marked(w, rows), rows[i].operation, rows[i].value)
  {
    hide Cyclic, Chain, CoveredBy, MarkRow;
    OneNameIsChain(w, rows[i].target);
    var j := Survivor(w, rows, [rows[i].target], i);
    MarkKeeps(w, rows, j);
    assert Marked(w, rows)[j].operation == rows[i].operation && Marked(w, rows)[j].value == rows[i].value;
  }

  /** A promoted value stays promoted if the covering rows may enter the indexes. */
  lemma PromotionSurvives(w: Wrappers, rows: seq<Row>, promotable: set<string>, i: nat)
    requires !Cyclic(w) && ExactIsResolved(rows) && CoveringArePromoted(w, rows, promotable)
    requires i < |rows| && MayPromote(rows[i], promotable)
    ensures Promoted(Marked(w, rows), promotable, rows[i].operation, rows[i].value)
  {
    hide Cyclic, Chain, CoveredBy, MarkRow;
    OneNameIsChain(w, rows[i].target);
    var j := Survivor(w, rows, [rows[i].target], i);
    MarkKeeps(w, rows, j);
    assert MayPromote(Marked(w, rows)[j], promotable);
    assert Marked(w, rows)[j].operation == rows[i].operation && Marked(w, rows)[j].value == rows[i].value;
  }

  // ------------------------------------------------ exactly when

  function ExactRowOf(target: string, enclosing: string, inProcess: bool, reachability: string): Row {
    Row("valueflow", target, "w.c", 1, 1, "7", MfsFile, "7", "READ", "w.c", 1, "7", Const, "SYNTAX", "", 1, ExactRow, inProcess,
        reachability, map["enclosing_function" := enclosing], Resolved, "")
  }

  lemma CoversByRow(w: Wrappers, rows: seq<Row>, i: nat, k: nat)
    requires i < |rows| && k < |rows| && rows[i].status == ExactRow && Proves(rows[k])
    requires Enclosing(rows[i]) == rows[k].target && rows[k].target in w && w[rows[k].target] == rows[i].target
    requires rows[k].operation == rows[i].operation && rows[k].value == rows[i].value
    ensures Marked(w, rows)[i].status == AliasInternalRow
  {
    var q := rows[k];
    assert q in rows;
    assert AliasKey(q.target, w[q.target], q.operation, q.value) in CoveredBy(w, rows);
  }

  /** Around a cycle of wrappers every call is taken for the inside of the next one. */
  lemma CycleLoses(w: Wrappers, promotable: set<string>, reachability: string, c: seq<string>) returns (rows: seq<Row>)
    requires Cycle(w, c) && reachability in promotable
    ensures ExactIsResolved(rows) && CoveringArePromoted(w, rows, promotable)
    ensures Proved(rows, "READ", "7") && !Proved(Marked(w, rows), "READ", "7")
    ensures Promoted(rows, promotable, "READ", "7") && !Promoted(Marked(w, rows), promotable, "READ", "7")
  {
    hide Marked;
    rows := seq(|c| - 1, i requires 0 <= i < |c| - 1 => ExactRowOf(c[i], c[i + 1], true, reachability));
    assert Proves(rows[0]) && MayPromote(rows[0], promotable) && rows[0].operation == "READ" && rows[0].value == "7";
    MarkedLength(w, rows);
    forall i | 0 <= i < |rows| ensures Marked(w, rows)[i].status == AliasInternalRow {
      CoversByRow(w, rows, i, if i + 1 < |rows| then i + 1 else 0);
    }
  }

  /** A call of a wrapper from outside the process covers the call inside the wrapper, and neither enters an index. */
  lemma OutsideCallLoses(w: Wrappers, promotable: set<string>, reachability: string, e: string) returns (rows: seq<Row>)
    requires e in w && reachability in promotable
    ensures rows == [ExactRowOf(w[e], e, true, reachability), ExactRowOf(e, "", false, "OUT_OF_PROCESS_SCOPE")]
    ensures ExactIsResolved(rows)
    ensures Promoted(rows, promotable, "READ", "7") && !Promoted(Marked(w, rows), promotable, "READ", "7")
  {
    rows := [ExactRowOf(w[e], e, true, reachability), ExactRowOf(e, "", false, "OUT_OF_PROCESS_SCOPE")];
    assert MayPromote(rows[0], promotable) && rows[0].operation == "READ" && rows[0].value == "7";
    CoversByRow(w, rows, 0, 1);
    MarkKeeps(w, rows, 1);
  }

  /** One wrapper, which is no cycle. */
  const ONE_WRAPPER: Wrappers := map["start_pkg" := "forkproc"]

  /** The call of `forkproc` inside `start_pkg` may enter the indexes until `start_pkg` is called from outside. */
  lemma AcyclicLoses() returns (rows: seq<Row>)
    ensures !Cyclic(ONE_WRAPPER) && |rows| == 2 && ExactIsResolved(rows)
    ensures Promoted(rows, PromotableReach("OK"), "READ", "7")
    ensures !Promoted(Marked(ONE_WRAPPER, rows), PromotableReach("OK"), "READ", "7")
  {
    rows := OutsideCallLoses(ONE_WRAPPER, PromotableReach("OK"), "DIRECT_ROOT", "start_pkg");
    forall c ensures !Cycle(ONE_WRAPPER, c) {
      assert |c| > 1 && Chain(ONE_WRAPPER, c) ==> c[1] == "start_pkg" && c[0] == "forkproc" && c[|c| - 1] in ONE_WRAPPER;
    }
  }

  ghost predicate KeepsExact(w: Wrappers, rows: seq<Row>) {
    forall operation, value :: Proved(rows, operation, value) ==> Proved(Marked(w, rows), operation, value)
  }

  ghost predicate KeepsPromoted(w: Wrappers, rows: seq<Row>, promotable: set<string>) {
    forall operation, value :: Promoted(rows, promotable, operation, value) ==> Promoted(Marked(w, rows), promotable, operation, value)
  }

  lemma AcyclicKeepsPromoted(w: Wrappers, rows: seq<Row>, promotable: set<string>)
    requires !Cyclic(w) && ExactIsResolved(rows) && CoveringArePromoted(w, rows, promotable)
    ensures KeepsPromoted(w, rows, promotable)
  {
    hide Cyclic, Marked, ExactIsResolved, CoveringArePromoted;
    forall operation, value | Promoted(rows, promotable, operation, value)
      ensures Promoted(Marked(w, rows), promotable, operation, value)
    {
      var i :| 0 <= i < |rows| && MayPromote(rows[i], promotable) && rows[i].operation == operation && rows[i].value == value;
      PromotionSurvives(w, rows, promotable, i);
    }
  }

  lemma AcyclicKeepsExact(w: Wrappers, rows: seq<Row>)
    requires !Cyclic(w) && ExactIsResolved(rows)
    ensures KeepsExact(w, rows)
  {
    hide Cyclic, Marked, ExactIsResolved;
    forall operation, value | Proved(rows, operation, value) ensures Proved(Marked(w, rows), operation, value) {
      var i :| 0 <= i < |rows| && Proves(rows[i]) && rows[i].operation == operation && rows[i].value == value;
      ExactSurvives(w, rows, i);
    }
  }

  /** Marking keeps every exact value exact, whatever the rows, exactly when no wrapper is, directly or through others,
      its own target. */
  lemma ExactKeptIffAcyclic(w: Wrappers)
    ensures (forall rows :: ExactIsResolved(rows) ==> KeepsExact(w, rows)) <==> !Cyclic(w)
  {
    hide Chain, Marked, ExactIsResolved, KeepsExact, Proved;
    if Cyclic(w) {
      var c :| Cycle(w, c);
      var rows := CycleLoses(w, {""}, "", c);
      assert !KeepsExact(w, rows) by { NotKeptExact(w, rows, "READ", "7"); }
    } else {
      forall rows | ExactIsResolved(rows) ensures KeepsExact(w, rows) {
        AcyclicKeepsExact(w, rows);
      }
    }
  }

  lemma NotKeptExact(w: Wrappers, rows: seq<Row>, operation: string, value: string)
    requires Proved(rows, operation, value) && !Proved(Marked(w, rows), operation, value)
    ensures !KeepsExact(w, rows)
  {
    hide Proved, Marked;
  }

  lemma NotKept(w: Wrappers, rows: seq<Row>, promotable: set<string>, operation: string, value: string)
    requires Promoted(rows, promotable, operation, value) && !Promoted(Marked(w, rows), promotable, operation, value)
    ensures !KeepsPromoted(w, rows, promotable)
  {
    hide Promoted, Marked;
  }

  lemma NoWrappersKeep(w: Wrappers, rows: seq<Row>)
    requires w.Keys == {}
    ensures Marked(w, rows) == rows
  {
  }

  /** Marking keeps every promoted value promoted, whatever the rows, exactly when there are no wrappers. */
  lemma PromotionsKeptIffNoWrappers(w: Wrappers, promotable: set<string>)
    requires promotable != {}
    ensures (forall rows :: ExactIsResolved(rows) ==> KeepsPromoted(w, rows, promotable)) <==> w.Keys == {}
  {
    hide Marked, ExactIsResolved, KeepsPromoted, Promoted;
    if w.Keys == {} {
      forall rows ensures KeepsPromoted(w, rows, promotable) {
        NoWrappersKeep(w, rows);
        SameKeeps(w, rows, promotable);
      }
    } else {
      var e :| e in w.Keys;
      var reachability :| reachability in promotable;
      var rows := OutsideCallLoses(w, promotable, reachability, e);
      NotKept(w, rows, promotable, "READ", "7");
    }
  }

  lemma SameKeeps(w: Wrappers, rows: seq<Row>, promotable: set<string>)
    requires Marked(w, rows) == rows
    ensures KeepsPromoted(w, rows, promotable)
  {
    hide Marked;
  }

  /** Marking keeps every promoted value promoted on all rows whose covering rows may enter the indexes, exactly when no
      wrapper is, directly or through others, its own target. */
  lemma PromotionsKeptIffAcyclic(w: Wrappers, promotable: set<string>)
    requires promotable != {}
    ensures (forall rows :: ExactIsResolved(rows) && CoveringArePromoted(w, rows, promotable) ==> KeepsPromoted(w, rows, promotable))
            <==> !Cyclic(w)
  {
    hide Chain, Marked, ExactIsResolved, CoveringArePromoted, KeepsPromoted, Promoted, Proved;
    if Cyclic(w) {
      var c :| Cycle(w, c);
      var reachability :| reachability in promotable;
      var rows := CycleLoses(w, promotable, reachability, c);
      NotKept(w, rows, promotable, "READ", "7");
    } else {
      forall rows | ExactIsResolved(rows) && CoveringArePromoted(w, rows, promotable) ensures KeepsPromoted(w, rows, promotable) {
        AcyclicKeepsPromoted(w, rows, promotable);
      }
    }
  }

  lemma OneNameIsChain(w: Wrappers, name: string)
    ensures Chain(w, [name])
  {
  }

  /** Only exact rows of a wrapper's own body change, and only to internal aliases. */
  lemma MarkKeeps(w: Wrappers, rows: seq<Row>, i: nat)
    requires i < |rows|
    ensures |Marked(w, rows)| == |rows|
    ensures var r, m := rows[i], Marked(w, rows)[i];
      m == r.(status := m.status, metadata := m.metadata)
       && (m.status == r.status || (r.status == ExactRow && m.status == AliasInternalRow))
  {
  }

  lemma {:induction false} MarkKeepsTotal(w: Wrappers, covered: set<AliasKey>, rows: seq<Row>)
    ensures TotalPaths(seq(|rows|, i requires 0 <= i < |rows| => MarkRow(w, covered, rows[i]))) == TotalPaths(rows)
  {
    hide MarkRow;
    var marked := seq(|rows|, i requires 0 <= i < |rows| => MarkRow(w, covered, rows[i]));
    if rows != [] {
      var before := rows[..|rows| - 1];
      MarkKeepsTotal(w, covered, before);
      assert marked[..|rows| - 1] == seq(|before|, i requires 0 <= i < |before| => MarkRow(w, covered, before[i]));
      MarkRowKeepsCount(w, covered, rows[|rows| - 1]);
    }
  }

  lemma MarkRowKeepsCount(w: Wrappers, covered: set<AliasKey>, r: Row)
    ensures MarkRow(w, covered, r).pathCount == r.pathCount
  {
  }

  ghost predicate NoAliases(rows: seq<Row>) {
    forall i :: 0 <= i < |rows| ==> rows[i].status != AliasInternalRow
  }

  /** Marking never makes two rows the same discovery. */
  lemma MarkKeepsDistinct(w: Wrappers, rows: seq<Row>)
    requires DistinctKeys(rows) && NoAliases(rows)
    ensures DistinctKeys(Marked(w, rows))
  {
    hide KeyOf, Marked;
    forall i, j | 0 <= i < j < |rows| ensures |Marked(w, rows)| == |rows| && KeyOf(Marked(w, rows)[i]) != KeyOf(Marked(w, rows)[j]) {
      MarkKeeps(w, rows, i);
      MarkKeeps(w, rows, j);
      DistinctStays(rows[i], rows[j], Marked(w, rows)[i], Marked(w, rows)[j]);
    }
    MarkedLength(w, rows);
  }

  lemma MarkedLength(w: Wrappers, rows: seq<Row>)
    ensures |Marked(w, rows)| == |rows|
  {
  }

  lemma DistinctStays(a: Row, b: Row, a': Row, b': Row)
    requires KeyOf(a) != KeyOf(b) && a.status != AliasInternalRow && b.status != AliasInternalRow
    requires a' == a.(status := a'.status, metadata := a'.metadata) && b' == b.(status := b'.status, metadata := b'.metadata)
    requires a'.status == a.status || (a.status == ExactRow && a'.status == AliasInternalRow)
    requires b'.status == b.status || (b.status == ExactRow && b'.status == AliasInternalRow)
    ensures KeyOf(a') != KeyOf(b')
  {
  }
}
