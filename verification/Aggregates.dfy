/** Forkproc indexes of one process, and the merge of the indexes of many. */
module Aggregates {
  import opened Wrappers
  import opened Orders
  import opened ValueStatus
  import opened DiscoveryRows

  /** One index file: entries under keys. A missing or malformed file contributes none. */
  type Payload<E> = map<string, seq<E>>

  predicate Lists<E(==)>(p: Payload<E>, key: string, e: E) {
    key in p && e in p[key]
  }

  // ------------------------------------------------ the merge as a relation

  /** Some process index lists `e` under `key`. */
  ghost predicate Listed<E>(ps: seq<Payload<E>>, key: string, e: E) {
    exists i :: 0 <= i < |ps| && Lists(ps[i], key, e)
  }

  ghost predicate HasEntry<E(!new)>(ps: seq<Payload<E>>, key: string) {
    exists e :: Listed(ps, key, e)
  }

  ghost predicate IsKey<E>(ps: seq<Payload<E>>, key: string) {
    exists i :: 0 <= i < |ps| && key in ps[i]
  }

  /** The merged index: each key's entries are those of all processes, sorted and without duplicates.
      `keepEmpty`: a key whose list is empty everywhere survives. */
  ghost predicate MergeOf<E(!new)>(ps: seq<Payload<E>>, keepEmpty: bool, leq: (E, E) -> bool, m: Payload<E>) {
    && (forall k :: k in m <==> if keepEmpty then IsKey(ps, k) else HasEntry(ps, k))
    && (forall k :: k in m ==> Increasing(m[k], leq))
    && (forall k, e :: Lists(m, k, e) <==> Listed(ps, k, e))
  }

  /** A merge is determined by which entries the processes list: neither their order nor repetition counts. */
  lemma MergeUnique<E(!new)>(ps: seq<Payload<E>>, qs: seq<Payload<E>>, keepEmpty: bool, leq: (E, E) -> bool,
                             m: Payload<E>, n: Payload<E>)
    requires TotalOrder(leq) && MergeOf(ps, keepEmpty, leq, m) && MergeOf(qs, keepEmpty, leq, n)
    requires keepEmpty ==> forall k :: IsKey(ps, k) <==> IsKey(qs, k)
    requires forall k, e :: Listed(ps, k, e) <==> Listed(qs, k, e)
    ensures m == n
  {
    hide TotalOrder, Increasing, IsKey, Listed;
    forall k ensures k in m <==> k in n {
    }
    forall k | k in m ensures m[k] == n[k] {
      forall e ensures e in m[k] <==> e in n[k] {
        assert Lists(m, k, e) <==> Lists(n, k, e);
      }
      IncreasingUnique(m[k], n[k], leq);
    }
  }

  lemma SameElementsSameMerge<E(!new)>(ps: seq<Payload<E>>, qs: seq<Payload<E>>, keepEmpty: bool, leq: (E, E) -> bool,
                                       m: Payload<E>, n: Payload<E>)
    requires TotalOrder(leq) && MergeOf(ps, keepEmpty, leq, m) && MergeOf(qs, keepEmpty, leq, n)
    requires forall p :: p in ps <==> p in qs
    ensures m == n
  {
    hide TotalOrder, MergeOf, Lists;
    forall k ensures IsKey(ps, k) <==> IsKey(qs, k) {
      if IsKey(ps, k) { var i :| 0 <= i < |ps| && k in ps[i]; assert ps[i] in qs; }
      if IsKey(qs, k) { var i :| 0 <= i < |qs| && k in qs[i]; assert qs[i] in ps; }
    }
    forall k, e ensures Listed(ps, k, e) <==> Listed(qs, k, e) {
      if Listed(ps, k, e) { var i :| 0 <= i < |ps| && Lists(ps[i], k, e); assert ps[i] in qs; }
      if Listed(qs, k, e) { var i :| 0 <= i < |qs| && Lists(qs[i], k, e); assert qs[i] in ps; }
    }
    MergeUnique(ps, qs, keepEmpty, leq, m, n);
  }

  lemma ConcatListed<E>(ps: seq<Payload<E>>, qs: seq<Payload<E>>, key: string, e: E)
    ensures Listed(ps + qs, key, e) <==> Listed(ps, key, e) || Listed(qs, key, e)
  {
    hide Lists;
    forall i | 0 <= i < |ps| ensures (ps + qs)[i] == ps[i] {}
    forall i | 0 <= i < |qs| ensures (ps + qs)[|ps| + i] == qs[i] {}
  }

  lemma OneListed<E>(m: Payload<E>, key: string, e: E)
    ensures Listed([m], key, e) <==> Lists(m, key, e)
  {
    hide Lists;
    assert [m][0] == m;
  }

  /** Merging an earlier merge with further processes is merging them all at once: the merge is associative,
      and merging a merge again changes nothing. */
  lemma MergeAssociative<E(!new)>(ps: seq<Payload<E>>, qs: seq<Payload<E>>, keepEmpty: bool, leq: (E, E) -> bool,
                                  m: Payload<E>, more: Payload<E>, all: Payload<E>)
    requires TotalOrder(leq) && MergeOf(ps, keepEmpty, leq, m)
    requires MergeOf([m] + qs, keepEmpty, leq, more) && MergeOf(ps + qs, keepEmpty, leq, all)
    ensures more == all
  {
    hide TotalOrder, Increasing, Lists, IsKey, Listed;
    forall k, e ensures Listed([m] + qs, k, e) <==> Listed(ps + qs, k, e) {
      ConcatListed([m], qs, k, e);
      ConcatListed(ps, qs, k, e);
      OneListed(m, k, e);
    }
    if keepEmpty {
      forall k ensures IsKey([m] + qs, k) <==> IsKey(ps + qs, k) {
        ConcatKey([m], qs, k);
        ConcatKey(ps, qs, k);
        OneKey(m, k);
      }
    }
    MergeUnique([m] + qs, ps + qs, keepEmpty, leq, more, all);
  }

  lemma ConcatKey<E>(ps: seq<Payload<E>>, qs: seq<Payload<E>>, key: string)
    ensures IsKey(ps + qs, key) <==> IsKey(ps, key) || IsKey(qs, key)
  {
    forall i | 0 <= i < |ps| ensures (ps + qs)[i] == ps[i] {}
    forall i | 0 <= i < |qs| ensures (ps + qs)[|ps| + i] == qs[i] {}
  }

  lemma OneKey<E>(m: Payload<E>, key: string)
    ensures IsKey([m], key) <==> key in m
  {
    assert [m][0] == m;
  }

  // ------------------------------------------------ the merge as loops

  type Gathered<E> = map<string, set<E>>

  function At<E>(acc: Gathered<E>, key: string): set<E> {
    if key in acc then acc[key] else {}
  }

  function SetOf<E(==)>(s: seq<E>): set<E> {
    set e | e in s
  }

  /** `acc` after the lists of `p` under the keys `done`. */
  ghost predicate Added<E(!new)>(before: Gathered<E>, acc: Gathered<E>, p: Payload<E>, done: set<string>, keepEmpty: bool) {
    && done <= p.Keys
    && (forall k :: k in acc <==> k in before || (k in done && (keepEmpty || p[k] != [])))
    && (forall k :: At(acc, k) == At(before, k) + if k in done then SetOf(p[k]) else {})
  }

  function AddOne<E>(acc: Gathered<E>, k: string, entries: seq<E>, keepEmpty: bool): Gathered<E> {
    if keepEmpty || entries != [] then acc[k := At(acc, k) + SetOf(entries)] else acc
  }

  lemma AddedStep<E(!new)>(before: Gathered<E>, acc: Gathered<E>, p: Payload<E>, done: set<string>, k: string, keepEmpty: bool)
    requires Added(before, acc, p, done, keepEmpty) && k in p && k !in done
    ensures Added(before, AddOne(acc, k, p[k], keepEmpty), p, done + {k}, keepEmpty)
  {
    hide SetOf;
    var acc' := AddOne(acc, k, p[k], keepEmpty);
    EmptySetOf<E>();
    forall j ensures At(acc', j) == At(before, j) + if j in done + {k} then SetOf(p[j]) else {} {
      assert At(acc, j) == At(before, j) + if j in done then SetOf(p[j]) else {};
    }
  }

  lemma EmptySetOf<E>()
    ensures SetOf<E>([]) == {}
  {
  }

  lemma NothingAdded<E(!new)>(before: Gathered<E>, p: Payload<E>, keepEmpty: bool)
    ensures Added(before, before, p, {}, keepEmpty)
  {
  }

  /** One process's callers: `update` creates the key even for an empty list. */
  method AddLists<E(==,!new)>(before: Gathered<E>, p: Payload<E>) returns (acc: Gathered<E>)
    ensures Added(before, acc, p, p.Keys, true)
  {
    hide Added, At, SetOf;
    acc := before;
    NothingAdded(before, p, true);
    var todo, done: set<string> := p.Keys, {};
    while todo != {}
      invariant todo + done == p.Keys && todo !! done
      invariant Added(before, acc, p, done, true)
      decreases todo
    {
      var k :| k in todo;
      AddedStep(before, acc, p, done, k, true);
      acc := acc[k := At(acc, k) + SetOf(p[k])];
      todo, done := todo - {k}, done + {k};
    }
    assert done == p.Keys;
  }

  /** One process's entries, added one by one: an empty list leaves no key. */
  method AddEntries<E(==,!new)>(before: Gathered<E>, p: Payload<E>) returns (acc: Gathered<E>)
    ensures Added(before, acc, p, p.Keys, false)
  {
    hide Added, At, SetOf;
    acc := before;
    NothingAdded(before, p, false);
    var todo, done: set<string> := p.Keys, {};
    while todo != {}
      invariant todo + done == p.Keys && todo !! done
      invariant Added(before, acc, p, done, false)
      decreases todo
    {
      var k :| k in todo;
      AddedStep(before, acc, p, done, k, false);
      acc := AddList(acc, k, p[k]);
      todo, done := todo - {k}, done + {k};
    }
    assert done == p.Keys;
  }

  method AddList<E(==,!new)>(before: Gathered<E>, k: string, entries: seq<E>) returns (acc: Gathered<E>)
    ensures acc == AddOne(before, k, entries, false)
  {
    acc := before;
    for n := 0 to |entries|
      invariant acc == AddOne(before, k, entries[..n], false)
    {
      AddOneMore(before, k, entries, n);
      acc := acc[k := At(acc, k) + {entries[n]}];
    }
    assert entries[..|entries|] == entries;
  }

  lemma AtUpdated<E>(acc: Gathered<E>, k: string, v: set<E>)
    ensures At(acc[k := v], k) == v
  {
  }

  lemma AddOneMore<E>(before: Gathered<E>, k: string, entries: seq<E>, n: nat)
    requires n < |entries|
    ensures var acc := AddOne(before, k, entries[..n], false);
      AddOne(before, k, entries[..n + 1], false) == acc[k := At(acc, k) + {entries[n]}]
  {
    hide At;
    var acc := AddOne(before, k, entries[..n], false);
    assert SetOf(entries[..n + 1]) == SetOf(entries[..n]) + {entries[n]};
    AtUpdated(before, k, At(before, k) + SetOf(entries[..n]));
    assert n == 0 ==> SetOf(entries[..n]) == {};
    assert At(acc, k) + {entries[n]} == At(before, k) + SetOf(entries[..n + 1]);
    var v := At(before, k) + SetOf(entries[..n + 1]);
    assert acc[k := v] == before[k := v];
  }

  ghost predicate Collects<E(!new)>(ps: seq<Payload<E>>, keepEmpty: bool, acc: Gathered<E>) {
    && (forall k :: k in acc <==> if keepEmpty then IsKey(ps, k) else HasEntry(ps, k))
    && (forall k, e :: e in At(acc, k) <==> Listed(ps, k, e))
  }

  lemma CollectsNothing<E(!new)>(keepEmpty: bool)
    ensures Collects<E>([], keepEmpty, map[])
  {
  }

  lemma CollectsOneMore<E(!new)>(ps: seq<Payload<E>>, p: Payload<E>, keepEmpty: bool, before: Gathered<E>, acc: Gathered<E>)
    requires Collects(ps, keepEmpty, before) && Added(before, acc, p, p.Keys, keepEmpty)
    ensures Collects(ps + [p], keepEmpty, acc)
  {
    hide IsKey, Listed;
    forall k, e ensures e in At(acc, k) <==> Listed(ps + [p], k, e) {
      ConcatListed(ps, [p], k, e);
      OneListed(p, k, e);
      assert e in At(acc, k) <==> e in At(before, k) || (k in p && e in SetOf(p[k]));
    }
    forall k ensures k in acc <==> if keepEmpty then IsKey(ps + [p], k) else HasEntry(ps + [p], k) {
      ConcatKey(ps, [p], k);
      OneKey(p, k);
      if !keepEmpty {
        EntryOneMore(ps, p, k);
      }
    }
  }

  lemma EntryOneMore<E(!new)>(ps: seq<Payload<E>>, p: Payload<E>, k: string)
    ensures HasEntry(ps + [p], k) <==> HasEntry(ps, k) || (k in p && p[k] != [])
  {
    hide Listed;
    forall e ensures Listed(ps + [p], k, e) <==> Listed(ps, k, e) || Lists(p, k, e) {
      ConcatListed(ps, [p], k, e);
      OneListed(p, k, e);
    }
    if k in p && p[k] != [] {
      assert Lists(p, k, p[k][0]);
    }
  }

  function SortAll<E(==,!new)>(acc: Gathered<E>, leq: (E, E) -> bool): Payload<E>
    requires TotalOrder(leq)
  {
    map k | k in acc :: SortSet(acc[k], leq)
  }

  lemma CollectedIsMerge<E(!new)>(ps: seq<Payload<E>>, keepEmpty: bool, acc: Gathered<E>, leq: (E, E) -> bool)
    requires TotalOrder(leq) && Collects(ps, keepEmpty, acc)
    ensures MergeOf(ps, keepEmpty, leq, SortAll(acc, leq))
  {
    hide TotalOrder, Increasing, IsKey, Listed, HasEntry;
    var m := SortAll(acc, leq);
    forall k, e ensures Lists(m, k, e) <==> Listed(ps, k, e) {
      assert e in At(acc, k) <==> Listed(ps, k, e);
    }
  }

  /** `_merge_forkproc_callers` */
  method MergeCallers<E(==,!new)>(ps: seq<Payload<E>>, leq: (E, E) -> bool) returns (m: Payload<E>)
    requires TotalOrder(leq)
    ensures MergeOf(ps, true, leq, m)
  {
    hide TotalOrder, Collects, Added, MergeOf;
    var acc: Gathered<E> := map[];
    CollectsNothing<E>(true);
    for n := 0 to |ps|
      invariant Collects(ps[..n], true, acc)
    {
      var next := AddLists(acc, ps[n]);
      CollectsOneMore(ps[..n], ps[n], true, acc, next);
      assert ps[..n + 1] == ps[..n] + [ps[n]];
      acc := next;
    }
    assert ps[..|ps|] == ps;
    CollectedIsMerge(ps, true, acc, leq);
    m := SortAll(acc, leq);
  }

  /** `_merge_forkproc_targets`, and the loops of the access and dynamic indexes. */
  method MergeEntries<E(==,!new)>(ps: seq<Payload<E>>, leq: (E, E) -> bool) returns (m: Payload<E>)
    requires TotalOrder(leq)
    ensures MergeOf(ps, false, leq, m)
  {
    hide TotalOrder, Collects, Added, MergeOf;
    var acc: Gathered<E> := map[];
    CollectsNothing<E>(false);
    for n := 0 to |ps|
      invariant Collects(ps[..n], false, acc)
    {
      var next := AddEntries(acc, ps[n]);
      CollectsOneMore(ps[..n], ps[n], false, acc, next);
      assert ps[..n + 1] == ps[..n] + [ps[n]];
      acc := next;
    }
    assert ps[..|ps|] == ps;
    CollectedIsMerge(ps, false, acc, leq);
    m := SortAll(acc, leq);
  }

  // ------------------------------------------------ callers and targets of forkproc

  type Launch = (int, string)

  predicate LaunchLeq(a: Launch, b: Launch) {
    a.0 < b.0 || (a.0 == b.0 && StrLeq(a.1, b.1))
  }

  lemma LaunchLeqTotalOrder()
    ensures TotalOrder(LaunchLeq)
  {
    hide StrLeq;
    StrLeqTotalOrder();
    assert forall s, t :: StrLeq(s, t) || StrLeq(t, s);
    assert forall s, t :: StrLeq(s, t) && StrLeq(t, s) ==> s == t;
    assert forall s, t, u :: StrLeq(s, t) && StrLeq(t, u) ==> StrLeq(s, u);
  }

  /** A caller lists the package at some line exactly when the package lists the caller. */
  ghost predicate Inverse(callers: Payload<string>, targets: Payload<Launch>) {
    forall package, file :: Lists(callers, package, file) <==> exists line :: Lists(targets, file, (line, package))
  }

  /** An exact row launches `package`. */
  predicate Launches(r: Row, promotable: set<string>, name: string -> Option<string>, package: string) {
    MayPromote(r, promotable) && r.resource == ForkProc && name(r.value) == Some(package)
  }

  ghost predicate Launched(facts: seq<Row>, promotable: set<string>, name: string -> Option<string>,
                           file: string, line: int, package: string)
  {
    exists i :: 0 <= i < |facts| && Launches(facts[i], promotable, name, package)
                && facts[i].siteFile == file && facts[i].siteLine == line
  }

  ghost predicate CallersGathered(callers: Gathered<string>, facts: seq<Row>, promotable: set<string>, name: string -> Option<string>) {
    forall package, file :: file in At(callers, package) <==> exists line :: Launched(facts, promotable, name, file, line, package)
  }

  ghost predicate TargetsGathered(targets: Gathered<Launch>, facts: seq<Row>, promotable: set<string>, name: string -> Option<string>) {
    forall file, line, package :: (line, package) in At(targets, file) <==> Launched(facts, promotable, name, file, line, package)
  }

  lemma LaunchedOneMore(facts: seq<Row>, n: nat, promotable: set<string>, name: string -> Option<string>,
                        file: string, line: int, package: string)
    requires n < |facts|
    ensures Launched(facts[..n + 1], promotable, name, file, line, package) <==>
      Launched(facts[..n], promotable, name, file, line, package) ||
      (Launches(facts[n], promotable, name, package) && facts[n].siteFile == file && facts[n].siteLine == line)
  {
    hide Launches;
    var upTo := facts[..n + 1];
    assert upTo[n] == facts[n];
    forall i | 0 <= i < n ensures upTo[i] == facts[..n][i] {}
  }

  lemma NothingLaunched(promotable: set<string>, name: string -> Option<string>)
    ensures CallersGathered(map[], [], promotable, name) && TargetsGathered(map[], [], promotable, name)
  {
  }

  lemma NoLaunchStep(facts: seq<Row>, n: nat, promotable: set<string>, name: string -> Option<string>,
                     callers: Gathered<string>, targets: Gathered<Launch>)
    requires n < |facts| && forall package :: !Launches(facts[n], promotable, name, package)
    requires CallersGathered(callers, facts[..n], promotable, name) && TargetsGathered(targets, facts[..n], promotable, name)
    ensures CallersGathered(callers, facts[..n + 1], promotable, name) && TargetsGathered(targets, facts[..n + 1], promotable, name)
  {
    hide Launched, Launches, At;
    var before, upTo := facts[..n], facts[..n + 1];
    forall file, line, package
      ensures Launched(upTo, promotable, name, file, line, package) <==> Launched(before, promotable, name, file, line, package)
    {
      LaunchedOneMore(facts, n, promotable, name, file, line, package);
    }
    assert CallersGathered(callers, upTo, promotable, name);
    assert TargetsGathered(targets, upTo, promotable, name);
  }

  lemma LaunchStep(facts: seq<Row>, n: nat, promotable: set<string>, name: string -> Option<string>, package: string,
                   callers: Gathered<string>, targets: Gathered<Launch>)
    requires n < |facts| && Launches(facts[n], promotable, name, package)
    requires CallersGathered(callers, facts[..n], promotable, name) && TargetsGathered(targets, facts[..n], promotable, name)
    ensures CallersGathered(callers[package := At(callers, package) + {facts[n].siteFile}], facts[..n + 1], promotable, name)
    ensures TargetsGathered(targets[facts[n].siteFile := At(targets, facts[n].siteFile) + {(facts[n].siteLine, package)}],
                            facts[..n + 1], promotable, name)
  {
    LaunchStepCallers(facts, n, promotable, name, package, callers);
    LaunchStepTargets(facts, n, promotable, name, package, targets);
  }

  lemma LaunchIsNext(facts: seq<Row>, n: nat, promotable: set<string>, name: string -> Option<string>, package: string,
                     file: string, line: int, p: string)
    requires n < |facts| && Launches(facts[n], promotable, name, package)
    ensures Launched(facts[..n + 1], promotable, name, file, line, p) <==>
      Launched(facts[..n], promotable, name, file, line, p) || (p == package && facts[n].siteFile == file && facts[n].siteLine == line)
  {
    hide Launched, MayPromote;
    LaunchedOneMore(facts, n, promotable, name, file, line, p);
  }

  lemma LaunchStepCallers(facts: seq<Row>, n: nat, promotable: set<string>, name: string -> Option<string>, package: string,
                          callers: Gathered<string>)
    requires n < |facts| && Launches(facts[n], promotable, name, package)
    requires CallersGathered(callers, facts[..n], promotable, name)
    ensures CallersGathered(callers[package := At(callers, package) + {facts[n].siteFile}], facts[..n + 1], promotable, name)
  {
    hide Launched, Launches;
    var before, upTo, fact := facts[..n], facts[..n + 1], facts[n];
    var callers' := callers[package := At(callers, package) + {fact.siteFile}];
    forall p, file | file in At(callers', p) ensures exists line :: Launched(upTo, promotable, name, file, line, p) {
      var line := fact.siteLine;
      if file in At(callers, p) {
        line :| Launched(before, promotable, name, file, line, p);
      }
      LaunchIsNext(facts, n, promotable, name, package, file, line, p);
      assert Launched(upTo, promotable, name, file, line, p);
    }
    forall p, file, line | Launched(upTo, promotable, name, file, line, p) ensures file in At(callers', p) {
      LaunchIsNext(facts, n, promotable, name, package, file, line, p);
      assert Launched(before, promotable, name, file, line, p) ==> file in At(callers, p);
    }
  }

  lemma LaunchStepTargets(facts: seq<Row>, n: nat, promotable: set<string>, name: string -> Option<string>, package: string,
                          targets: Gathered<Launch>)
    requires n < |facts| && Launches(facts[n], promotable, name, package)
    requires TargetsGathered(targets, facts[..n], promotable, name)
    ensures TargetsGathered(targets[facts[n].siteFile := At(targets, facts[n].siteFile) + {(facts[n].siteLine, package)}],
                            facts[..n + 1], promotable, name)
  {
    hide Launched, Launches;
    var before, upTo, fact := facts[..n], facts[..n + 1], facts[n];
    var targets' := targets[fact.siteFile := At(targets, fact.siteFile) + {(fact.siteLine, package)}];
    forall file, line, p ensures (line, p) in At(targets', file) <==> Launched(upTo, promotable, name, file, line, p) {
      LaunchIsNext(facts, n, promotable, name, package, file, line, p);
      assert (line, p) in At(targets, file) <==> Launched(before, promotable, name, file, line, p);
    }
  }

  lemma GatheredIsInverse(facts: seq<Row>, promotable: set<string>, name: string -> Option<string>,
                          callerSets: Gathered<string>, targetSets: Gathered<Launch>,
                          callers: Payload<string>, targets: Payload<Launch>)
    requires CallersGathered(callerSets, facts, promotable, name) && TargetsGathered(targetSets, facts, promotable, name)
    requires forall k, e :: Lists(callers, k, e) <==> e in At(callerSets, k)
    requires forall k, e :: Lists(targets, k, e) <==> e in At(targetSets, k)
    ensures Inverse(callers, targets)
    ensures forall file, line, package :: Lists(targets, file, (line, package)) <==> Launched(facts, promotable, name, file, line, package)
  {
    hide Launched, Lists, At;
    forall package, file ensures Lists(callers, package, file) <==> exists line :: Lists(targets, file, (line, package)) {
      if Lists(callers, package, file) {
        var line :| Launched(facts, promotable, name, file, line, package);
        assert (line, package) in At(targetSets, file);
      }
      if exists line :: Lists(targets, file, (line, package)) {
        var line :| Lists(targets, file, (line, package));
        assert (line, package) in At(targetSets, file);
        assert Launched(facts, promotable, name, file, line, package);
      }
    }
  }

  /** Some row launches `package` there: it is exact, in the process, of a reachability that promotes in this run, and its
      value names the package. */
  ghost predicate LaunchRow(facts: seq<Row>, rootState: string, name: string -> Option<string>,
                            file: string, line: int, package: string)
  {
    exists i :: 0 <= i < |facts|
      && facts[i].status == ExactRow && facts[i].inProcess && facts[i].resource == ForkProc && name(facts[i].value) == Some(package)
      && (facts[i].reachability in {"DIRECT_ROOT", "CALLBACK", "UNKNOWN"}
          || (facts[i].reachability == "LOCAL_BACKWALK" && rootState == "OK"))
      && facts[i].siteFile == file && facts[i].siteLine == line
  }

  lemma LaunchRowIff(facts: seq<Row>, rootState: string, name: string -> Option<string>, file: string, line: int, package: string)
    ensures LaunchRow(facts, rootState, name, file, line, package) <==>
      Launched(facts, PromotableReach(rootState), name, file, line, package)
  {
    forall i | 0 <= i < |facts| ensures Launches(facts[i], PromotableReach(rootState), name, package) <==>
      && facts[i].status == ExactRow && facts[i].inProcess && facts[i].resource == ForkProc && name(facts[i].value) == Some(package)
      && (facts[i].reachability in {"DIRECT_ROOT", "CALLBACK", "UNKNOWN"}
          || (facts[i].reachability == "LOCAL_BACKWALK" && rootState == "OK"))
    {
    }
  }

  /** By line, and at one line by package; nothing twice. */
  ghost predicate ByLine(launches: seq<Launch>) {
    forall i, j :: 0 <= i < j < |launches| ==>
      || launches[i].0 < launches[j].0
      || (launches[i].0 == launches[j].0 && launches[i].1 != launches[j].1 && StrLeq(launches[i].1, launches[j].1))
  }

  lemma IncreasingIsByLine(launches: seq<Launch>)
    requires Increasing(launches, LaunchLeq)
    ensures ByLine(launches)
  {
    hide StrLeq;
  }

  /** The forkproc part of `build_discovery_payloads`. */
  method BuildForkproc(facts: seq<Row>, rootState: string, name: string -> Option<string>)
    returns (callers: Payload<string>, targets: Payload<Launch>)
    ensures Inverse(callers, targets)
    ensures forall file, line, package ::
      Lists(targets, file, (line, package)) <==> Launched(facts, PromotableReach(rootState), name, file, line, package)
    ensures forall k :: k in callers ==> Increasing(callers[k], StrLeq)
    ensures forall k :: k in targets ==> Increasing(targets[k], LaunchLeq)
    ensures forall file, line, package ::
      Lists(targets, file, (line, package)) <==> LaunchRow(facts, rootState, name, file, line, package)
    ensures forall k :: k in targets ==> ByLine(targets[k])
  {
    hide LaunchRow, ByLine, Launched, TotalOrder, Increasing, MayPromote, CallersGathered, TargetsGathered, LaunchLeq, PromotableReach;
    var promotable := PromotableReach(rootState);
    NothingLaunched(promotable, name);
    var callerSets: Gathered<string>, targetSets: Gathered<Launch> := map[], map[];
    for n := 0 to |facts|
      invariant CallersGathered(callerSets, facts[..n], promotable, name)
      invariant TargetsGathered(targetSets, facts[..n], promotable, name)
    {
      var fact := facts[n];
      if MayPromote(fact, promotable) && fact.resource == ForkProc && name(fact.value).Some? {
        var package := name(fact.value).value;
        LaunchStep(facts, n, promotable, name, package, callerSets, targetSets);
        callerSets := callerSets[package := At(callerSets, package) + {fact.siteFile}];
        targetSets := targetSets[fact.siteFile := At(targetSets, fact.siteFile) + {(fact.siteLine, package)}];
      } else {
        NoLaunchStep(facts, n, promotable, name, callerSets, targetSets);
      }
    }
    assert facts[..|facts|] == facts;
    StrLeqTotalOrder();
    LaunchLeqTotalOrder();
    callers, targets := SortAll(callerSets, StrLeq), SortAll(targetSets, LaunchLeq);
    GatheredIsInverse(facts, promotable, name, callerSets, targetSets, callers, targets);
    forall file, line, package
      ensures Launched(facts, promotable, name, file, line, package) <==> LaunchRow(facts, rootState, name, file, line, package)
    {
      LaunchRowIff(facts, rootState, name, file, line, package);
    }
    forall k | k in targets ensures ByLine(targets[k]) {
      IncreasingIsByLine(targets[k]);
    }
  }

  /** The two indexes of every process are inverse, so the merged ones are. */
  lemma MergeKeepsInverse(callers: seq<Payload<string>>, targets: seq<Payload<Launch>>, keepEmpty: bool,
                          leq: (string, string) -> bool, leq': (Launch, Launch) -> bool,
                          allCallers: Payload<string>, allTargets: Payload<Launch>)
    requires |callers| == |targets| && forall i :: 0 <= i < |callers| ==> Inverse(callers[i], targets[i])
    requires MergeOf(callers, keepEmpty, leq, allCallers) && MergeOf(targets, false, leq', allTargets)
    ensures Inverse(allCallers, allTargets)
  {
    hide Lists, Increasing;
    forall package, file ensures Lists(allCallers, package, file) <==> exists line :: Lists(allTargets, file, (line, package)) {
      if Lists(allCallers, package, file) {
        assert Listed(callers, package, file);
        var i :| 0 <= i < |callers| && Lists(callers[i], package, file);
        assert Inverse(callers[i], targets[i]);
        var line :| Lists(targets[i], file, (line, package));
        assert Listed(targets, file, (line, package));
        assert Lists(allTargets, file, (line, package));
      }
      if exists line :: Lists(allTargets, file, (line, package)) {
        var line :| Lists(allTargets, file, (line, package));
        assert Listed(targets, file, (line, package));
        var i :| 0 <= i < |targets| && Lists(targets[i], file, (line, package));
        assert Inverse(callers[i], targets[i]);
        assert Lists(callers[i], package, file);
        assert Listed(callers, package, file);
      }
    }
  }
}
