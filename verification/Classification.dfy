/** What the alternatives for one argument decide, in terms of the records themselves. */
module Classification {
  import opened Orders
  import opened Splitting
  import opened ValueStatus

  predicate IsNoTarget(f: Fact) {
    f.value == "NO TARGET"
  }

  /** A literal from a constant, a macro, a constant table or a bounded set. */
  predicate IsLiteral(t: Text, f: Fact) {
    f.value != "NO TARGET" && f.origin in {Const, Macro, ConstTable, BoundedSet} && t.literal(f.value)
  }

  predicate IsRuntime(f: Fact) {
    f.value != "NO TARGET" && f.origin == RuntimeData
  }

  predicate IsExternal(f: Fact) {
    f.value != "NO TARGET" && f.origin in {ExternalEntry, ExternalData}
  }

  /** `q` is an alternative for the argument that `r` speaks about. */
  predicate Alternative(t: Text, records: seq<Record>, r: Record, q: Record) {
    q in records && GroupKey(t, q) == GroupKey(t, r)
  }

  // ------------------------------------------------ which records are alternatives

  /** Records with site ids speak about one argument if id and argument agree. */
  lemma SameSiteId(t: Text, r: Record, q: Record)
    requires r.site.siteId != "" && q.site.siteId != ""
    ensures GroupKey(t, q) == GroupKey(t, r) <==> q.site.siteId == r.site.siteId && q.argIndex == r.argIndex
  {
  }

  /** `str` of the line numbers: different numbers look different, and none is empty or has a colon. */
  ghost predicate ShowsLines(t: Text) {
    && (forall m, n :: t.show(m) == t.show(n) ==> m == n)
    && (forall n :: t.show(n) != "" && ':' !in t.show(n))
  }

  /** Without ids, file, line, target and argument have to agree. */
  lemma SamePosition(t: Text, r: Record, q: Record)
    requires r.site.siteId == "" && q.site.siteId == "" && ShowsLines(t) && ':' !in r.site.file && ':' !in q.site.file
    ensures GroupKey(t, q) == GroupKey(t, r) <==>
      && q.site.file == r.site.file && q.site.line == r.site.line && q.target == r.target && q.argIndex == r.argIndex
  {
    var a := if r.site.line == 0 then "" else t.show(r.site.line);
    var b := if q.site.line == 0 then "" else t.show(q.site.line);
    var s, u := r.site.file + ":" + a + ":" + r.target, q.site.file + ":" + b + ":" + q.target;
    assert s == r.site.file + ":" + (a + ":" + r.target) && u == q.site.file + ":" + (b + ":" + q.target);
    if s == u {
      FirstSeparator(':', r.site.file, a + ":" + r.target, q.site.file, b + ":" + q.target);
      FirstSeparator(':', a, r.target, b, q.target);
    }
  }

  // ------------------------------------------------ what they decide together

  lemma KindIs(t: Text, f: Fact)
    ensures FactKind(t, f) == NoTarget <==> IsNoTarget(f)
    ensures FactKind(t, f) == Resolved <==> IsLiteral(t, f)
    ensures FactKind(t, f) == Runtime <==> IsRuntime(f)
    ensures FactKind(t, f) == External <==> IsExternal(f)
  {
  }

  lemma GroupIs(t: Text, records: seq<Record>, r: Record)
    ensures forall q :: q in Alternatives(t, records, GroupKey(t, r)) <==> Alternative(t, records, r, q)
  {
    hide GroupKey;
  }

  lemma KindsAre(t: Text, group: set<Record>, k: Kind)
    ensures k in Kinds(t, group) <==> exists q :: q in group && FactKind(t, q.fact) == k
  {
    hide FactKind;
  }

  lemma OnlyKind(t: Text, group: set<Record>, r: Record, k: Kind)
    requires r in group
    ensures Kinds(t, group) == {k} <==> forall q :: q in group ==> FactKind(t, q.fact) == k
  {
    hide FactKind;
    if Kinds(t, group) == {k} {
      forall q | q in group ensures FactKind(t, q.fact) == k {
        assert FactKind(t, q.fact) in Kinds(t, group);
      }
    }
    if forall q :: q in group ==> FactKind(t, q.fact) == k {
      assert FactKind(t, r.fact) in Kinds(t, group);
    }
  }

  lemma ManyValues(group: set<Record>, r: Record)
    requires r in group
    ensures |Values(group)| > 1 <==> exists q :: q in group && q.fact.value != r.fact.value
  {
    var values := Values(group);
    assert r.fact.value in values;
    if q :| q in group && q.fact.value != r.fact.value {
      assert {r.fact.value, q.fact.value} <= values;
      SubsetCount({r.fact.value, q.fact.value}, values);
    } else {
      assert values == {r.fact.value};
    }
  }

  lemma LiteralOrRuntime(t: Text, group: set<Record>, r: Record)
    requires r in group
    ensures Kinds(t, group) <= {Resolved, Runtime} <==>
      forall q :: q in group ==> FactKind(t, q.fact) == Resolved || FactKind(t, q.fact) == Runtime
  {
    hide FactKind;
    if Kinds(t, group) <= {Resolved, Runtime} {
      forall q | q in group ensures FactKind(t, q.fact) in {Resolved, Runtime} {
        assert FactKind(t, q.fact) in Kinds(t, group);
      }
    }
  }

  lemma GroupStatusIs(t: Text, group: set<Record>, r: Record)
    requires r in group
    ensures var status := GroupStatus(Kinds(t, group), Values(group));
      && (status == NoTarget <==> forall q :: q in group ==> FactKind(t, q.fact) == NoTarget)
      && (status == External <==> forall q :: q in group ==> FactKind(t, q.fact) == External)
      && (status == Runtime <==>
            && (forall q :: q in group ==> FactKind(t, q.fact) == Resolved || FactKind(t, q.fact) == Runtime)
            && exists q :: q in group && (FactKind(t, q.fact) == Runtime || q.fact.value != r.fact.value))
      && (status == Resolved <==> forall q :: q in group ==> FactKind(t, q.fact) == Resolved && q.fact.value == r.fact.value)
  {
    hide FactKind, Kinds, Values;
    OnlyKind(t, group, r, NoTarget);
    OnlyKind(t, group, r, External);
    OnlyKind(t, group, r, Resolved);
    ManyValues(group, r);
    LiteralOrRuntime(t, group, r);
    KindsAre(t, group, Runtime);
    assert Kinds(t, group) != {} by { KindsAre(t, group, FactKind(t, r.fact)); }
  }

  /** All alternatives literal or from run-time data, and one of the latter or two different values. */
  ghost predicate RunsOverSet(t: Text, records: seq<Record>, r: Record) {
    && (forall q :: Alternative(t, records, r, q) ==> IsLiteral(t, q.fact) || IsRuntime(q.fact))
    && exists q :: Alternative(t, records, r, q) && (IsRuntime(q.fact) || q.fact.value != r.fact.value)
  }

  ghost predicate AllExternal(t: Text, records: seq<Record>, r: Record) {
    forall q :: Alternative(t, records, r, q) ==> IsExternal(q.fact)
  }

  ghost predicate OneLiteral(t: Text, records: seq<Record>, r: Record) {
    forall q :: Alternative(t, records, r, q) ==> IsLiteral(t, q.fact) && q.fact.value == r.fact.value
  }

  /** The status of a record's argument, and unresolved where none of these holds. */
  lemma StatusIff(t: Text, records: seq<Record>, r: Record)
    requires r in records
    ensures var status := InfoOf(t, records, GroupKey(t, r)).status;
      && (status == NoTarget <==> forall q :: Alternative(t, records, r, q) ==> IsNoTarget(q.fact))
      && (status == External <==> AllExternal(t, records, r))
      && (status == Runtime <==> RunsOverSet(t, records, r))
      && (status == Resolved <==> OneLiteral(t, records, r))
  {
    hide GroupKey, FactKind, IsNoTarget, IsLiteral, IsRuntime, IsExternal, GroupStatus, Kinds, Values, Alternatives, Alternative;
    var group := Alternatives(t, records, GroupKey(t, r));
    GroupIs(t, records, r);
    assert Alternative(t, records, r, r) by { IsAlternative(t, records, r); }
    GroupStatusIs(t, group, r);
    forall q: Record {
      KindIs(t, q.fact);
    }
  }

  lemma IsAlternative(t: Text, records: seq<Record>, r: Record)
    requires r in records
    ensures Alternative(t, records, r, r)
  {
  }

  // ------------------------------------------------ the id of a run-time set

  /** The alternatives name one set, and perhaps some name none. */
  ghost predicate NamesOneSet(t: Text, records: seq<Record>, r: Record, id: string) {
    && id != ""
    && (exists q :: Alternative(t, records, r, q) && "set_id" in q.fact.metadata && q.fact.metadata["set_id"] == id)
    && (forall q :: Alternative(t, records, r, q) && "set_id" in q.fact.metadata ==> q.fact.metadata["set_id"] in {"", id})
  }

  lemma SetIdsAre(group: set<Record>, id: string)
    ensures id in SetIds(group) <==> id != "" && exists q :: q in group && "set_id" in q.fact.metadata && q.fact.metadata["set_id"] == id
  {
    if q :| q in group && "set_id" in q.fact.metadata && q.fact.metadata["set_id"] == id {
      assert Get(q.fact.metadata, "set_id") == id;
    }
  }

  ghost predicate SetNamed(t: Text, records: seq<Record>, r: Record, id: string) {
    exists q :: Alternative(t, records, r, q) && "set_id" in q.fact.metadata && q.fact.metadata["set_id"] == id
  }

  lemma SetIdsOf(t: Text, records: seq<Record>, r: Record, id: string)
    ensures id in SetIds(Alternatives(t, records, GroupKey(t, r))) <==> id != "" && SetNamed(t, records, r, id)
  {
    hide GroupKey, SetIds, Alternatives, Alternative;
    GroupIs(t, records, r);
    SetIdsAre(Alternatives(t, records, GroupKey(t, r)), id);
  }

  lemma OneSetId(t: Text, records: seq<Record>, r: Record, id: string)
    ensures NamesOneSet(t, records, r, id) <==> SetIds(Alternatives(t, records, GroupKey(t, r))) == {id}
  {
    hide GroupKey, SetIds, Alternatives, Alternative;
    var ids := SetIds(Alternatives(t, records, GroupKey(t, r)));
    forall x ensures x in ids <==> x != "" && SetNamed(t, records, r, x) {
      SetIdsOf(t, records, r, x);
    }
    if ids == {id} {
      forall q | Alternative(t, records, r, q) && "set_id" in q.fact.metadata ensures q.fact.metadata["set_id"] in {"", id} {
        assert SetNamed(t, records, r, q.fact.metadata["set_id"]);
      }
    }
  }

  /** A run-time set has the id that its alternatives name, if that is one, and otherwise one made from site and argument;
      nothing else has a set id. */
  lemma SetIdIs(t: Text, records: seq<Record>, r: Record, id: string)
    ensures var info := InfoOf(t, records, GroupKey(t, r));
      && (info.status != Runtime ==> info.setId == "")
      && (info.status == Runtime && NamesOneSet(t, records, r, id) ==> info.setId == id)
      && (info.status == Runtime && (forall x :: !NamesOneSet(t, records, r, x)) ==>
            info.setId == "set:" + t.digest(GroupKey(t, r).0, GroupKey(t, r).1))
  {
    hide GroupKey, SetIds, Alternatives, GroupStatus, NamesOneSet;
    var ids := SetIds(Alternatives(t, records, GroupKey(t, r)));
    OneSetId(t, records, r, id);
    if ids == {id} {
      OnlyOne(ids, id);
    }
    if |ids| == 1 {
      var x :| x in ids;
      assert |ids - {x}| == 0;
      assert ids == {x};
      OneSetId(t, records, r, x);
    }
  }

  // ------------------------------------------------ the status of a row

  /** A target of resource `none` has no row to resolve; a handle without an open is unresolved and has no value; otherwise
      the row is external or dynamic if the alternatives are, and keeps its value. */
  lemma RowIs(t: Text, x: Syntax, records: seq<Record>, r: Record, resource: Resource, operation: string)
    requires r in records
    ensures var (status, value) := RowStatus(x, r.fact, resource, operation, InfoOf(t, records, GroupKey(t, r)).status);
      && (status == NoTargetRow <==> resource == NoResource)
      && (status == ExternalRow <==> resource != NoResource && AllExternal(t, records, r))
      && (status == DynamicRow <==> resource != NoResource && RunsOverSet(t, records, r))
      && (status == ExactRow <==> Promotable(x, resource, operation, r.fact.value) && OneLiteral(t, records, r))
      && status in {NoTargetRow, ExternalRow, DynamicRow, ExactRow, UnresolvedRow}
      && value == if resource == NoResource || IsNoTarget(r.fact) then "" else r.fact.value
  {
    hide GroupKey, InfoOf, OneLiteral, RunsOverSet, AllExternal;
    StatusIff(t, records, r);
    OwnKind(t, records, r);
  }

  lemma OwnKind(t: Text, records: seq<Record>, r: Record)
    requires r in records
    ensures AllExternal(t, records, r) ==> IsExternal(r.fact)
    ensures RunsOverSet(t, records, r) ==> IsLiteral(t, r.fact) || IsRuntime(r.fact)
    ensures OneLiteral(t, records, r) ==> IsLiteral(t, r.fact)
  {
    hide GroupKey;
    IsAlternative(t, records, r);
  }
}
