/** What all alternatives for one argument of one call site prove together, and which rows may be exact. */
module ValueStatus {
  import opened Orders

  datatype Origin =
    | Const | Macro | ConstTable | BoundedSet
    | RuntimeData | ExternalEntry | ExternalData
    | LlmCandidate | OtherOrigin(name: string)

  datatype Fact = Fact(value: string, origin: Origin, sourceFile: string, sourceLine: int, sourceExpr: string,
                       resolvedBy: string, linkMethod: string, metadata: map<string, string>)

  datatype CallSite = CallSite(siteId: string, file: string, line: int, caller: string)

  datatype Record = Record(site: CallSite, target: string, argIndex: int, pathCount: int, fact: Fact)

  /** `_is_literal`, `str` on integers and the digest of a group key. */
  datatype Text = Text(literal: string -> bool, show: int -> string, digest: (string, int) -> string)

  datatype Kind = Resolved | Runtime | External | Unresolved | NoTarget

  datatype Info = Info(status: Kind, setId: string)

  type Key = (string, int)

  const NO_TARGET_VALUE := "NO TARGET"

  function Get(metadata: map<string, string>, key: string): string {
    if key in metadata then metadata[key] else ""
  }

  /** The call site and argument a record speaks about. */
  function GroupKey(t: Text, r: Record): Key {
    var site :=
      if r.site.siteId != "" then r.site.siteId
      else r.site.file + ":" + (if r.site.line == 0 then "" else t.show(r.site.line)) + ":" + r.target;
    (site, r.argIndex)
  }

  predicate Constant(o: Origin) {
    o == Const || o == Macro || o == ConstTable || o == BoundedSet
  }

  function FactKind(t: Text, f: Fact): Kind {
    if f.value == NO_TARGET_VALUE then NoTarget
    else if Constant(f.origin) then if t.literal(f.value) then Resolved else Unresolved
    else match f.origin
      case RuntimeData => Runtime
      case ExternalEntry => External
      case ExternalData => External
      case _ => Unresolved
  }

  function GroupStatus(kinds: set<Kind>, values: set<string>): Kind {
    if kinds == {NoTarget} then NoTarget
    else if kinds == {External} then External
    else if kinds == {Resolved} then if |values| > 1 then Runtime else Resolved
    else if kinds != {} && kinds <= {Resolved, Runtime} && Runtime in kinds then Runtime
    else Unresolved
  }

  // ------------------------------------------------ the alternatives for one argument, as a set

  predicate InGroup(t: Text, r: Record, key: Key) {
    GroupKey(t, r) == key
  }

  function Alternatives(t: Text, records: seq<Record>, key: Key): set<Record> {
    set r | r in records && InGroup(t, r, key)
  }

  function Kinds(t: Text, group: set<Record>): set<Kind> {
    set r | r in group :: FactKind(t, r.fact)
  }

  function Values(group: set<Record>): set<string> {
    set r | r in group :: r.fact.value
  }

  function SetIds(group: set<Record>): set<string> {
    (set r | r in group :: Get(r.fact.metadata, "set_id")) - {""}
  }

  ghost function TheOnly(s: set<string>): string
    requires |s| == 1
  {
    var x :| x in s; x
  }

  ghost function SetId(t: Text, ids: set<string>, key: Key): string {
    if |ids| == 1 then TheOnly(ids) else "set:" + t.digest(key.0, key.1)
  }

  /** What the alternatives of `key` prove, whatever their order. */
  ghost function InfoOf(t: Text, records: seq<Record>, key: Key): Info {
    var group := Alternatives(t, records, key);
    var status := GroupStatus(Kinds(t, group), Values(group));
    Info(status, if status == Runtime then SetId(t, SetIds(group), key) else "")
  }

  // ------------------------------------------------ classify_records

  type Groups = map<Key, seq<nat>>

  /** Indices of the first `n` records that speak about `key`, in order. */
  function Members(t: Text, records: seq<Record>, n: nat, key: Key): seq<nat>
    requires n <= |records|
  {
    if n == 0 then []
    else Members(t, records, n - 1, key) + if InGroup(t, records[n - 1], key) then [n - 1] else []
  }

  lemma {:induction false} MembersAre(t: Text, records: seq<Record>, n: nat, key: Key)
    requires n <= |records|
    ensures forall i: nat :: i in Members(t, records, n, key) <==> i < n && InGroup(t, records[i], key)
  {
    if n > 0 {
      MembersAre(t, records, n - 1, key);
    }
  }

  ghost predicate Grouped(t: Text, records: seq<Record>, n: nat, groups: Groups)
    requires n <= |records|
  {
    forall k :: (k in groups <==> Members(t, records, n, k) != []) && (k in groups ==> groups[k] == Members(t, records, n, k))
  }

  method GroupRecords(t: Text, records: seq<Record>) returns (groups: Groups)
    ensures Grouped(t, records, |records|, groups)
  {
    hide GroupKey;
    groups := map[];
    var n := 0;
    while n < |records|
      invariant 0 <= n <= |records| && Grouped(t, records, n, groups)
    {
      var key := GroupKey(t, records[n]);
      groups := groups[key := (if key in groups then groups[key] else []) + [n]];
      n := n + 1;
    }
  }

  lemma MembersAreAlternatives(t: Text, records: seq<Record>, key: Key)
    ensures forall i :: i in Members(t, records, |records|, key) ==> i < |records| && InGroup(t, records[i], key)
    ensures (set i | i in Members(t, records, |records|, key) && i < |records| :: records[i]) == Alternatives(t, records, key)
  {
    hide InGroup, Members;
    MembersAre(t, records, |records|, key);
    forall r | r in Alternatives(t, records, key)
      ensures r in (set i | i in Members(t, records, |records|, key) && i < |records| :: records[i])
    {
      var i :| 0 <= i < |records| && records[i] == r;
      assert i in Members(t, records, |records|, key);
    }
  }

  lemma OnlyOne(s: set<string>, x: string)
    requires |s| == 1 && x in s
    ensures TheOnly(s) == x
  {
    assert |s - {x}| == 0;
    assert TheOnly(s) !in s - {x};
  }

  /** The value of one group. */
  method ClassifyGroup(t: Text, key: Key, group: set<Record>) returns (info: Info)
    ensures info.status == GroupStatus(Kinds(t, group), Values(group))
    ensures info.setId == if info.status == Runtime then SetId(t, SetIds(group), key) else ""
  {
    var status := GroupStatus(Kinds(t, group), Values(group));
    var setId := "";
    if status == Runtime {
      var existing := SetIds(group);
      if |existing| == 1 {
        setId :| setId in existing;
        OnlyOne(existing, setId);
      } else {
        setId := "set:" + t.digest(key.0, key.1);
      }
    }
    info := Info(status, setId);
  }

  /** Records of the keys already handled carry their group's info; no other record carries any. */
  ghost predicate Classified(t: Text, records: seq<Record>, done: set<Key>, result: map<nat, Info>) {
    && (forall i: nat :: i in result <==> i < |records| && GroupKey(t, records[i]) in done)
    && (forall i :: i in result ==> result[i] == InfoOf(t, records, GroupKey(t, records[i])))
  }

  /** Every record gets what all alternatives of its argument prove together, in whatever order the groups
      are visited. */
  method ClassifyRecords(t: Text, records: seq<Record>) returns (result: map<nat, Info>)
    ensures forall i: nat :: i in result <==> i < |records|
    ensures forall i :: 0 <= i < |records| ==> result[i] == InfoOf(t, records, GroupKey(t, records[i]))
  {
    hide GroupKey, InfoOf, Members;
    var groups := GroupRecords(t, records);
    result := map[];
    var todo, done: set<Key> := groups.Keys, {};
    while todo != {}
      invariant todo + done == groups.Keys && todo !! done
      invariant Classified(t, records, done, result)
      decreases todo
    {
      var key :| key in todo;
      todo, done := todo - {key}, done + {key};
      result := AssignGroup(t, records, key, groups[key], done - {key}, result);
    }
    AllGrouped(t, records, groups);
  }

  lemma AllGrouped(t: Text, records: seq<Record>, groups: Groups)
    requires Grouped(t, records, |records|, groups)
    ensures forall i :: 0 <= i < |records| ==> GroupKey(t, records[i]) in groups
  {
    hide Members, GroupKey;
    forall i | 0 <= i < |records| ensures GroupKey(t, records[i]) in groups {
      MembersAre(t, records, |records|, GroupKey(t, records[i]));
      assert i in Members(t, records, |records|, GroupKey(t, records[i]));
    }
  }

  method AssignGroup(t: Text, records: seq<Record>, key: Key, group: seq<nat>, ghost done: set<Key>, before: map<nat, Info>)
    returns (result: map<nat, Info>)
    requires group == Members(t, records, |records|, key) && key !in done
    requires Classified(t, records, done, before)
    ensures Classified(t, records, done + {key}, result)
  {
    hide GroupKey, Members, Kinds, Values, SetIds;
    MembersAreAlternatives(t, records, key);
    MembersAre(t, records, |records|, key);
    var alternatives := set i | i in group && i < |records| :: records[i];
    var info := ClassifyGroup(t, key, alternatives);
    assert info == InfoOf(t, records, key);
    result := before;
    var n := 0;
    while n < |group|
      invariant 0 <= n <= |group|
      invariant forall i :: i in result <==> i in before || i in group[..n]
      invariant forall i :: i in result ==> result[i] == if i in before then before[i] else info
    {
      result := result[group[n] := info];
      n := n + 1;
    }
    assert group[..n] == group;
  }

  // ------------------------------------------------ exact rows

  datatype Resource = MfsFile | MfsQueue | ForkProc | NoResource | OtherResource(name: string)

  datatype Status = ExactRow | UnresolvedRow | ExternalRow | DynamicRow | NoTargetRow | UnreachableRow | AliasInternalRow

  /** `to_decimal` and `package_name` succeed. */
  datatype Syntax = Syntax(decimal: string -> bool, package: string -> bool)

  /** A value of this spelling may become an exact index entry of the resource. */
  predicate Promotable(x: Syntax, resource: Resource, operation: string, value: string) {
    match resource
    case MfsFile => x.decimal(value) && operation != ""
    case MfsQueue => x.decimal(value) && operation != ""
    case ForkProc => x.package(value)
    case _ => false
  }

  /** `_classify_valueflow_fact`. */
  function RowStatus(x: Syntax, f: Fact, resource: Resource, operation: string, semantic: Kind): (Status, string) {
    if resource == NoResource || f.value == NO_TARGET_VALUE then
      if resource == NoResource then (NoTargetRow, "") else (UnresolvedRow, "")
    else if f.origin == LlmCandidate then (UnresolvedRow, f.value)
    else if semantic == Unresolved then (UnresolvedRow, f.value)
    else if semantic == External then (ExternalRow, f.value)
    else if semantic == Runtime then (DynamicRow, f.value)
    else if semantic == Resolved && Constant(f.origin) then
      if resource == MfsFile || resource == MfsQueue then
        if x.decimal(f.value) && operation != "" then (ExactRow, f.value) else (UnresolvedRow, f.value)
      else if resource == ForkProc then
        if x.package(f.value) then (ExactRow, f.value) else (UnresolvedRow, f.value)
      else (UnresolvedRow, f.value)
    else (UnresolvedRow, f.value)
  }

  /** The alternatives for a record's argument all spell one literal constant. */
  ghost predicate Unanimous(t: Text, records: seq<Record>, key: Key, value: string) {
    forall r :: r in records && InGroup(t, r, key) ==>
      r.fact.value == value && Constant(r.fact.origin) && t.literal(r.fact.value) && value != NO_TARGET_VALUE
  }

  lemma ResolvedIffUnanimous(t: Text, records: seq<Record>, r: Record)
    requires r in records
    ensures InfoOf(t, records, GroupKey(t, r)).status == Resolved <==> Unanimous(t, records, GroupKey(t, r), r.fact.value)
  {
    hide GroupKey;
    var group := Alternatives(t, records, GroupKey(t, r));
    assert r in group && FactKind(t, r.fact) in Kinds(t, group) && r.fact.value in Values(group);
    if InfoOf(t, records, GroupKey(t, r)).status == Resolved {
      forall q | q in group ensures FactKind(t, q.fact) == Resolved && q.fact.value == r.fact.value {
        assert FactKind(t, q.fact) in Kinds(t, group) && q.fact.value in Values(group);
        SmallSet(Values(group), q.fact.value, r.fact.value);
      }
    }
    if Unanimous(t, records, GroupKey(t, r), r.fact.value) {
      assert Kinds(t, group) == {Resolved};
      assert Values(group) == {r.fact.value};
    }
  }

  lemma SmallSet(s: set<string>, x: string, y: string)
    requires |s| <= 1 && x in s && y in s
    ensures x == y
  {
    if x != y {
      assert |{x, y}| == 2 && {x, y} <= s;
      SubsetCount({x, y}, s);
    }
  }

  /** A row is exact exactly when every alternative for its argument spells the same literal constant
      and the target takes such a value. */
  lemma ExactIff(t: Text, x: Syntax, records: seq<Record>, r: Record, resource: Resource, operation: string)
    requires r in records
    ensures RowStatus(x, r.fact, resource, operation, InfoOf(t, records, GroupKey(t, r)).status).0 == ExactRow <==>
            Promotable(x, resource, operation, r.fact.value) && Unanimous(t, records, GroupKey(t, r), r.fact.value)
  {
    hide GroupKey, InfoOf;
    ResolvedIffUnanimous(t, records, r);
    assert InGroup(t, r, GroupKey(t, r));
  }

  /** Two exact rows for the same argument of the same site carry the same value. */
  lemma ExactIsSingleValued(t: Text, x: Syntax, records: seq<Record>, r: Record, q: Record,
                            resource: Resource, operation: string, resource': Resource, operation': string)
    requires r in records && q in records && GroupKey(t, r) == GroupKey(t, q)
    requires RowStatus(x, r.fact, resource, operation, InfoOf(t, records, GroupKey(t, r)).status).0 == ExactRow
    requires RowStatus(x, q.fact, resource', operation', InfoOf(t, records, GroupKey(t, q)).status).0 == ExactRow
    ensures r.fact.value == q.fact.value
    ensures RowStatus(x, r.fact, resource, operation, InfoOf(t, records, GroupKey(t, r)).status).1 ==
            RowStatus(x, q.fact, resource', operation', InfoOf(t, records, GroupKey(t, q)).status).1 == r.fact.value
  {
    hide GroupKey, InfoOf;
    ExactIff(t, x, records, r, resource, operation);
    assert InGroup(t, q, GroupKey(t, r));
  }

  /** The order and the repetition of records do not matter. */
  lemma OrderOfRecordsIrrelevant(t: Text, records: seq<Record>, others: seq<Record>, key: Key)
    requires forall r :: r in records <==> r in others
    ensures InfoOf(t, records, key) == InfoOf(t, others, key)
  {
    assert Alternatives(t, records, key) == Alternatives(t, others, key);
  }
}
