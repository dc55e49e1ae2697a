/** What the content-addressed cache key covers, and what a second run reuses. */
module SummaryCache {
  import opened Orders
  import opened CallGraph
  import opened SummaryPlan
  import opened SummaryRun
  import opened SummaryTheorems

  ghost predicate Injective(digest: Payload -> string) {
    forall a, b :: digest(a) == digest(b) ==> a == b
  }

  /** The contents behind a fingerprint, with the callees outside the group spelled out. */
  datatype Contents = Contents(source: string, callees: seq<Contents>, peers: seq<string>,
                               external: seq<string>, model: string, wikiUrl: string)

  ghost function ContentsOf(p: Plan, f: Id): Contents
    requires ValidPlan(p) && f in p.g.nodes
    decreases Layer(p, f), 0, 1
  {
    OutsideIsEarlier(p, f);
    Contents(SourceDigest(p, f), AllContents(p, f, OutsideCallees(p, f)), PeerDigests(p, Peers(p, f)),
             Sorted(p.external[f]), p.model, p.wikiUrl)
  }

  ghost function AllContents(p: Plan, f: Id, callees: seq<Id>): (r: seq<Contents>)
    requires ValidPlan(p) && f in p.g.nodes
    requires forall c :: c in callees ==> c in p.g.nodes && Layer(p, c) < Layer(p, f)
    ensures |r| == |callees|
    decreases Layer(p, f), 0, 0, |callees|
  {
    if callees == [] then []
    else [ContentsOf(p, callees[0])] + AllContents(p, f, callees[1..])
  }

  lemma {:induction false} AllContentsAt(p: Plan, f: Id, callees: seq<Id>, i: nat)
    requires ValidPlan(p) && f in p.g.nodes && i < |callees|
    requires forall c :: c in callees ==> c in p.g.nodes && Layer(p, c) < Layer(p, f)
    ensures AllContents(p, f, callees)[i] == ContentsOf(p, callees[i])
  {
    hide ContentsOf, ValidPlan;
    if i > 0 {
      AllContentsAt(p, f, callees[1..], i - 1);
    }
  }

  ghost function CalleeContents(p: Plan, f: Id): seq<Contents>
    requires ValidPlan(p) && f in p.g.nodes
  {
    OutsideIsEarlier(p, f);
    AllContents(p, f, OutsideCallees(p, f))
  }

  lemma ContentsUnfolds(p: Plan, f: Id)
    requires ValidPlan(p) && f in p.g.nodes
    ensures ContentsOf(p, f) == Contents(SourceDigest(p, f), CalleeContents(p, f), PeerDigests(p, Peers(p, f)),
                                         Sorted(p.external[f]), p.model, p.wikiUrl)
    ensures |CalleeContents(p, f)| == |OutsideCallees(p, f)|
    ensures forall i :: 0 <= i < |OutsideCallees(p, f)| ==>
              OutsideCallees(p, f)[i] in p.g.nodes && Layer(p, OutsideCallees(p, f)[i]) < Layer(p, f) &&
              CalleeContents(p, f)[i] == ContentsOf(p, OutsideCallees(p, f)[i])
  {
    var callees := OutsideCallees(p, f);
    OutsideIsEarlier(p, f);
    forall i | 0 <= i < |callees| ensures CalleeContents(p, f)[i] == ContentsOf(p, callees[i]) {
      AllContentsAt(p, f, callees, i);
    }
  }

  /** Merkle property, both ways, over two runs that may differ in everything but the hash:
      fingerprints are equal exactly if source digests, external names and peer digests are,
      and recursively those of every callee outside the group, in order. */
  lemma {:induction false} FingerprintIsContents(p: Plan, f: Id, q: Plan, h: Id)
    requires ValidPlan(p) && f in p.g.nodes && ValidPlan(q) && h in q.g.nodes
    requires p.digest == q.digest && Injective(p.digest)
    ensures Fingerprint(p, f) == Fingerprint(q, h) <==> ContentsOf(p, f) == ContentsOf(q, h)
    decreases Layer(p, f)
  {
    hide ValidPlan, Fingerprint, ContentsOf, CalleeContents, CalleeFingerprints, OutsideCallees, Peers;
    InGroupItself(p, f);
    InGroupItself(q, h);
    FingerprintUnfolds(p, f);
    FingerprintUnfolds(q, h);
    ContentsUnfolds(p, f);
    ContentsUnfolds(q, h);
    var cs, ds := OutsideCallees(p, f), OutsideCallees(q, h);
    if |cs| == |ds| {
      forall i | 0 <= i < |cs|
        ensures CalleeFingerprints(p, f)[i] == CalleeFingerprints(q, h)[i] <==> CalleeContents(p, f)[i] == CalleeContents(q, h)[i]
      {
        FingerprintIsContents(p, cs[i], q, ds[i]);
      }
      SamePointwise(CalleeFingerprints(p, f), CalleeFingerprints(q, h), CalleeContents(p, f), CalleeContents(q, h));
    }
  }

  lemma SamePointwise<A, B>(a: seq<A>, a': seq<A>, b: seq<B>, b': seq<B>)
    requires |a| == |a'| == |b| == |b'|
    requires forall i :: 0 <= i < |a| ==> (a[i] == a'[i] <==> b[i] == b'[i])
    ensures a == a' <==> b == b'
  {
    if a == a' { assert forall i :: 0 <= i < |b| ==> a[i] == a'[i] && b[i] == b'[i]; }
    if b == b' { assert forall i :: 0 <= i < |a| ==> b[i] == b'[i] && a[i] == a'[i]; }
  }

  // ------------------------------------------------ what is digested

  /** In order, the callees of `f` outside its group. */
  ghost predicate AreOutside(p: Plan, f: Id, callees: seq<Id>)
    requires f in p.schedule.groupOf
  {
    Increasing(callees, StrLeq) && forall c :: c in callees <==> c in Callees(p.g, f) && c !in p.schedule.groupOf[f]
  }

  /** In order, the others of its group. */
  ghost predicate ArePeers(p: Plan, f: Id, peers: seq<Id>)
    requires f in p.schedule.groupOf
  {
    Increasing(peers, StrLeq) && forall c :: c in peers <==> c in p.schedule.groupOf[f] && c != f
  }

  ghost predicate AreFingerprints(p: Plan, callees: seq<Id>, dependencies: seq<string>)
    requires ValidPlan(p)
  {
    && |dependencies| == |callees|
    && forall i :: 0 <= i < |callees| ==> callees[i] in p.g.nodes && dependencies[i] == Fingerprint(p, callees[i])
  }

  /** Field by field, what goes into the fingerprint of `f`. */
  ghost predicate Digested(p: Plan, f: Id, payload: Payload, peers: seq<Id>)
    requires f in p.functions && f in p.external
  {
    && payload.source == (if p.functions[f].sha != "" then p.functions[f].sha else p.sha256(p.functions[f].source))
    && |payload.peers| == |peers|
    && (forall i :: 0 <= i < |peers| && peers[i] in p.functions ==> payload.peers[i] == p.functions[peers[i]].sha)
    && Increasing(payload.external, StrLeq) && (forall name :: name in payload.external <==> name in p.external[f])
    && payload.model == p.model && payload.wikiUrl == p.wikiUrl
  }

  lemma PayloadIs(p: Plan, f: Id, dependencies: seq<string>)
    requires f in p.functions && f in p.external && f in p.schedule.groupOf
    ensures Digested(p, f, PayloadOf(p, f, dependencies), Peers(p, f)) && PayloadOf(p, f, dependencies).dependencies == dependencies
    ensures AreOutside(p, f, OutsideCallees(p, f)) && ArePeers(p, f, Peers(p, f))
  {
    hide StrLeq, Sorted;
  }

  /** The fingerprint digests the own source digest, the fingerprints of the callees outside the group, the digests of the
      others in the group, the names of external callees, the model and the wiki, and nothing else. */
  lemma FingerprintDigests(p: Plan, f: Id) returns (payload: Payload, callees: seq<Id>, peers: seq<Id>)
    requires ValidPlan(p) && f in p.g.nodes
    ensures f in p.functions && f in p.external && f in p.schedule.groupOf
    ensures AreOutside(p, f, callees) && ArePeers(p, f, peers) && AreFingerprints(p, callees, payload.dependencies)
    ensures Digested(p, f, payload, peers) && Fingerprint(p, f) == p.digest(payload)
  {
    hide Fingerprint, Digested, AreOutside, ArePeers, PayloadOf, OutsideCallees, Peers, CalleeFingerprints;
    InGroupItself(p, f);
    FingerprintUnfolds(p, f);
    callees, peers := OutsideCallees(p, f), Peers(p, f);
    payload := PayloadOf(p, f, CalleeFingerprints(p, f));
    PayloadIs(p, f, CalleeFingerprints(p, f));
  }

  // ------------------------------------------------ which source changes a key sees

  /** The functions whose source digest enters the fingerprint of `f`: its group and,
      recursively, what its own callees outside the group cover. */
  ghost predicate Covers(p: Plan, f: Id, x: Id)
    requires ValidPlan(p) && f in p.g.nodes
    decreases Layer(p, f)
  {
    OutsideIsEarlier(p, f);
    assert f in p.schedule.groupOf;
    x in p.schedule.groupOf[f] || exists c :: c in OutsideCallees(p, f) && Covers(p, c, x)
  }

  /** `own` says whether the digest that `x` itself uses differs, `shown` whether the one its peers see does; `f`
      notices it as `x` itself, as a peer, or through a callee outside the group. */
  ghost predicate Notices(p: Plan, f: Id, x: Id, own: bool, shown: bool)
    requires ValidPlan(p) && f in p.g.nodes
    decreases Layer(p, f)
  {
    OutsideIsEarlier(p, f);
    assert f in p.schedule.groupOf;
    || (f == x && own)
    || (f != x && x in p.schedule.groupOf[f] && shown)
    || exists c :: c in OutsideCallees(p, f) && Notices(p, c, x, own, shown)
  }

  /** The record of `x`, and nothing else, differs. */
  ghost predicate OnlyRecordChanged(p: Plan, q: Plan, x: Id) {
    && q.g == p.g && q.external == p.external && q.schedule == p.schedule
    && q.model == p.model && q.wikiUrl == p.wikiUrl && q.sha256 == p.sha256 && q.digest == p.digest
    && q.functions.Keys == p.functions.Keys && x in p.g.nodes && x in p.functions
    && (forall y :: y in p.functions && y != x ==> q.functions[y] == p.functions[y])
  }

  /** `x` uses its `source_sha256`, or else the digest of its source. */
  ghost predicate OwnDiffers(p: Plan, q: Plan, x: Id)
    requires x in p.functions && x in q.functions
  {
    (if p.functions[x].sha != "" then p.functions[x].sha else p.sha256(p.functions[x].source)) !=
    (if q.functions[x].sha != "" then q.functions[x].sha else q.sha256(q.functions[x].source))
  }

  /** Its peers see its `source_sha256`, empty if there is none. */
  ghost predicate ShownDiffers(p: Plan, q: Plan, x: Id)
    requires x in p.functions && x in q.functions
  {
    p.functions[x].sha != q.functions[x].sha
  }

  lemma PeersDiffer(p: Plan, q: Plan, x: Id, f: Id)
    requires ValidPlan(p) && OnlyRecordChanged(p, q, x) && f in p.g.nodes && f in p.schedule.groupOf
    ensures PeerDigests(p, Peers(p, f)) != PeerDigests(q, Peers(q, f)) <==>
            f != x && x in p.schedule.groupOf[f] && ShownDiffers(p, q, x)
  {
    hide ValidPlan;
    var peers := Peers(p, f);
    assert Peers(q, f) == peers;
    if x in peers {
      var i :| 0 <= i < |peers| && peers[i] == x;
      assert PeerDigests(p, peers)[i] == p.functions[x].sha && PeerDigests(q, peers)[i] == q.functions[x].sha;
    }
    assert forall i :: 0 <= i < |peers| && peers[i] != x ==> PeerDigests(p, peers)[i] == PeerDigests(q, peers)[i];
  }

  ghost predicate NoticedExactly(p: Plan, q: Plan, x: Id, c: Id, own: bool, shown: bool)
    requires ValidPlan(p) && ValidPlan(q)
  {
    c in p.g.nodes && c in q.g.nodes && (Fingerprint(p, c) == Fingerprint(q, c) <==> !Notices(p, c, x, own, shown))
  }

  lemma SomeCalleeDiffers(p: Plan, q: Plan, x: Id, f: Id, cs: seq<Id>, own: bool, shown: bool)
    requires ValidPlan(p) && ValidPlan(q) && f in p.g.nodes && q.g == p.g && q.schedule == p.schedule
    requires f in p.schedule.groupOf && cs == OutsideCallees(p, f)
    requires forall c :: c in cs ==> NoticedExactly(p, q, x, c, own, shown)
    ensures CalleeFingerprints(p, f) == CalleeFingerprints(q, f) <==>
            forall c :: c in cs ==> c in p.g.nodes && !Notices(p, c, x, own, shown)
  {
    hide ValidPlan, Fingerprint, Notices, CalleeFingerprints, OutsideCallees;
    FingerprintUnfolds(p, f);
    FingerprintUnfolds(q, f);
    SameOutsideCallees(p, q, f);
    forall i | 0 <= i < |cs|
      ensures cs[i] in p.g.nodes && (CalleeFingerprints(p, f)[i] == CalleeFingerprints(q, f)[i] <==> !Notices(p, cs[i], x, own, shown))
    {
      assert NoticedExactly(p, q, x, cs[i], own, shown);
    }
    AllOrSome(p, x, cs, CalleeFingerprints(p, f), CalleeFingerprints(q, f), own, shown);
  }

  lemma SameOutsideCallees(p: Plan, q: Plan, f: Id)
    requires q.g == p.g && q.schedule == p.schedule && f in p.schedule.groupOf
    ensures OutsideCallees(q, f) == OutsideCallees(p, f)
  {
  }

  lemma AllOrSome(p: Plan, x: Id, cs: seq<Id>, a: seq<string>, b: seq<string>, own: bool, shown: bool)
    requires ValidPlan(p) && |a| == |b| == |cs|
    requires forall i :: 0 <= i < |cs| ==> cs[i] in p.g.nodes && (a[i] == b[i] <==> !Notices(p, cs[i], x, own, shown))
    ensures a == b <==> forall c :: c in cs ==> c in p.g.nodes && !Notices(p, c, x, own, shown)
  {
    hide ValidPlan, Notices;
    if a != b {
      var i :| 0 <= i < |cs| && a[i] != b[i];
      assert cs[i] in cs;
    }
  }

  /** After any change of the record of `x`, exactly the fingerprints that notice it change: whether there is a
      `source_sha256` before, after, both or neither. */
  lemma {:induction false} ChangeSeenIffNoticed(p: Plan, q: Plan, x: Id, f: Id)
    requires ValidPlan(p) && ValidPlan(q) && OnlyRecordChanged(p, q, x) && f in p.g.nodes
    requires Injective(p.digest)
    ensures x in q.functions
    ensures Fingerprint(p, f) != Fingerprint(q, f) <==> Notices(p, f, x, OwnDiffers(p, q, x), ShownDiffers(p, q, x))
    decreases Layer(p, f)
  {
    hide ValidPlan, Fingerprint, CalleeFingerprints, Peers, PeerDigests, OutsideCallees, ShownDiffers;
    InGroupItself(p, f);
    InFunctions(p, q, f);
    var own, shown := OwnDiffers(p, q, x), ShownDiffers(p, q, x);
    var cs := OutsideCallees(p, f);
    OutsideIsEarlier(p, f);
    forall c | c in cs ensures NoticedExactly(p, q, x, c, own, shown) {
      ChangeSeenIffNoticed(p, q, x, c);
    }
    SomeCalleeDiffers(p, q, x, f, cs, own, shown);
    PeersDiffer(p, q, x, f);
    FingerprintUnfolds(p, f);
    FingerprintUnfolds(q, f);
  }

  lemma InFunctions(p: Plan, q: Plan, f: Id)
    requires ValidPlan(p) && ValidPlan(q) && f in p.g.nodes && q.g == p.g
    ensures f in p.functions && f in q.functions && f in p.external && f in q.external
  {
  }

  lemma {:induction false} NoticingIsCovering(p: Plan, f: Id, x: Id)
    requires ValidPlan(p) && f in p.g.nodes
    ensures Notices(p, f, x, true, true) <==> Covers(p, f, x)
    decreases Layer(p, f)
  {
    hide ValidPlan;
    InGroupItself(p, f);
    OutsideIsEarlier(p, f);
    forall c | c in OutsideCallees(p, f) ensures Notices(p, c, x, true, true) <==> Covers(p, c, x) {
      NoticingIsCovering(p, c, x);
    }
  }

  /** A change of `x` that also its peers see changes exactly the fingerprints that cover `x`. */
  lemma ChangeSeenIffCovered(p: Plan, q: Plan, x: Id, f: Id)
    requires ValidPlan(p) && ValidPlan(q) && OnlyRecordChanged(p, q, x) && f in p.g.nodes
    requires Injective(p.digest) && x in q.functions && OwnDiffers(p, q, x) && ShownDiffers(p, q, x)
    ensures Fingerprint(p, f) != Fingerprint(q, f) <==> Covers(p, f, x)
  {
    hide ValidPlan, Fingerprint, Covers, Notices;
    ChangeSeenIffNoticed(p, q, x, f);
    NoticingIsCovering(p, f, x);
  }

  /** Without a `source_sha256`, before and after, an edit of `x` is missed by every recursion peer of `x`. */
  lemma PeersMissEdit(p: Plan, q: Plan, x: Id, f: Id)
    requires ValidPlan(p) && ValidPlan(q) && OnlyRecordChanged(p, q, x) && f in p.g.nodes
    requires Injective(p.digest) && x in q.functions && !ShownDiffers(p, q, x)
    requires f in p.schedule.groupOf && x in p.schedule.groupOf[f] && f != x
    ensures Fingerprint(p, f) == Fingerprint(q, f)
  {
    hide ValidPlan, Fingerprint, ShownDiffers, OwnDiffers;
    ChangeSeenIffNoticed(p, q, x, f);
    OutsideIsEarlier(p, f);
    SameLayer(p, f, x);
    forall c | c in OutsideCallees(p, f) ensures !Notices(p, c, x, OwnDiffers(p, q, x), false) {
      EarlierMisses(p, c, x, OwnDiffers(p, q, x));
    }
  }

  lemma SameLayer(p: Plan, f: Id, x: Id)
    requires ValidPlan(p) && f in p.g.nodes && f in p.schedule.groupOf && x in p.schedule.groupOf[f]
    ensures Layer(p, x) == Layer(p, f)
  {
    assert GoodTask(p.g, p.schedule, f);
  }

  lemma {:induction false} EarlierMisses(p: Plan, c: Id, x: Id, own: bool)
    requires ValidPlan(p) && c in p.g.nodes && Layer(p, c) < Layer(p, x)
    ensures !Notices(p, c, x, own, false)
    decreases Layer(p, c)
  {
    hide ValidPlan;
    InGroupItself(p, c);
    OutsideIsEarlier(p, c);
    forall d | d in OutsideCallees(p, c) ensures !Notices(p, d, x, own, false) {
      EarlierMisses(p, d, x, own);
    }
  }

  lemma InGroupItself(p: Plan, f: Id)
    requires ValidPlan(p) && f in p.g.nodes
    ensures f in p.schedule.groupOf && f in p.schedule.groupOf[f]
  {
    assert GoodTask(p.g, p.schedule, f);
  }

  /** A recursive function whose calls all stay in its group keeps its fingerprint when something that only its peers
      call changes, although it reaches it: the key does not cover callees of peers. */
  lemma PeerCalleesUnseen(p: Plan, q: Plan, x: Id, f: Id)
    requires ValidPlan(p) && ValidPlan(q) && OnlyRecordChanged(p, q, x) && f in p.g.nodes
    requires Injective(p.digest)
    requires f in p.schedule.groupOf && Callees(p.g, f) <= p.schedule.groupOf[f] && x !in p.schedule.groupOf[f]
    ensures Fingerprint(p, f) == Fingerprint(q, f) && !Covers(p, f, x)
    ensures forall peer :: peer in p.schedule.groupOf[f] && Reach(p.g, f, peer) && x in OutsideCalleesOf(p, peer) ==> Reach(p.g, f, x)
  {
    hide ValidPlan, Fingerprint, OwnDiffers, ShownDiffers, Reach;
    InGroupItself(p, f);
    ChangeSeenIffNoticed(p, q, x, f);
    forall peer | peer in p.schedule.groupOf[f] && Reach(p.g, f, peer) && x in OutsideCalleesOf(p, peer) ensures Reach(p.g, f, x) {
      OutsideReached(p, f, peer, x);
    }
  }

  ghost function OutsideCalleesOf(p: Plan, f: Id): set<Id> {
    if f in p.schedule.groupOf then Callees(p.g, f) - p.schedule.groupOf[f] else {}
  }

  lemma OutsideReached(p: Plan, f: Id, g: Id, c: Id)
    requires ValidPlan(p) && Reach(p.g, f, g) && c in OutsideCalleesOf(p, g)
    ensures c in p.g.nodes && Reach(p.g, f, c)
  {
    hide Reach;
    ReachInNodes(p.g, f, g);
    assert GoodTask(p.g, p.schedule, g);
    ReachEdge(p.g, g, c);
    ReachTransitive(p.g, f, g, c);
  }

  ghost predicate NoRecursion(p: Plan)
    requires ValidPlan(p)
  {
    forall f :: f in p.schedule.groupOf ==> p.schedule.groupOf[f] == {f}
  }

  lemma {:induction false} CoveredIsReached(p: Plan, f: Id, x: Id)
    requires ValidPlan(p) && NoRecursion(p) && f in p.g.nodes && Covers(p, f, x)
    ensures Reach(p.g, f, x)
    decreases Layer(p, f)
  {
    InGroupItself(p, f);
    OutsideIsEarlier(p, f);
    if x in p.schedule.groupOf[f] {
      ReachSelf(p.g, f);
    } else {
      var c :| c in OutsideCallees(p, f) && Covers(p, c, x);
      CoveredIsReached(p, c, x);
      ReachEdge(p.g, f, c);
      ReachTransitive(p.g, f, c, x);
    }
  }

  lemma {:induction false} ReachedIsCovered(p: Plan, f: Id, x: Id, walk: seq<Id>)
    requires ValidPlan(p) && NoRecursion(p) && f in p.g.nodes && IsWalk(p.g, walk, f, x)
    ensures Covers(p, f, x)
    decreases |walk|
  {
    InGroupItself(p, f);
    if |walk| > 1 {
      assert Edge(p.g, walk[0], walk[1]);
      ReachedIsCovered(p, walk[1], x, walk[1..]);
      if walk[1] != f {
        assert walk[1] in OutsideCallees(p, f);
      }
    }
  }

  /** Without recursion a fingerprint covers exactly what the function reaches. */
  lemma CoversReach(p: Plan, f: Id, x: Id)
    requires ValidPlan(p) && NoRecursion(p) && f in p.g.nodes
    ensures Covers(p, f, x) <==> Reach(p.g, f, x)
  {
    hide ValidPlan, Covers;
    if Covers(p, f, x) { CoveredIsReached(p, f, x); }
    if Reach(p.g, f, x) {
      var walk :| IsWalk(p.g, walk, f, x);
      ReachedIsCovered(p, f, x, walk);
    }
  }

  // ------------------------------------------------ a second run

  ghost predicate Succeeded(s: State, f: Id) {
    TaskOf(s, f) in {Settled(Ready), Settled(Cached)}
  }

  /** A function summarised or reused in a finished run is reused by the next run of the
      same plan, whatever the two interleavings. */
  lemma UnchangedIsReused(p: Plan, cache0: map<Id, Entry>, s: State, s': State, f: Id)
    requires ValidPlan(p) && Reachable(p, cache0, s) && Finished(p, s)
    requires Reachable(p, s.cache, s') && Finished(p, s')
    requires f in p.g.nodes && Succeeded(s, f)
    ensures TaskOf(s', f) == Settled(Cached)
    ensures f in s.summaries && f in s'.summaries && s'.summaries[f] == s.summaries[f]
  {
    hide ValidPlan, Inv, Fingerprint;
    ReachableKeeps(p, cache0, s);
    ReachableKeeps(p, s.cache, s');
    AtTask(p, cache0, s, f);
    FinishedSettled(p, s.cache, s', f);
    AtTask(p, s.cache, s', f);
  }

  /** After any change of the record of `x`, the next run asks the model again for exactly the functions that notice
      it; for a change that its peers see as well, for exactly those whose fingerprint covers `x`. */
  lemma EditRedoesExactlyNoticed(p: Plan, q: Plan, x: Id, cache0: map<Id, Entry>, s: State, s': State, f: Id)
    requires ValidPlan(p) && ValidPlan(q) && OnlyRecordChanged(p, q, x) && Injective(p.digest)
    requires Reachable(p, cache0, s) && Finished(p, s)
    requires Reachable(q, s.cache, s') && Finished(q, s')
    requires f in p.g.nodes && Succeeded(s, f)
    ensures x in q.functions
    ensures TaskOf(s', f) != Settled(Cached) <==> Notices(p, f, x, OwnDiffers(p, q, x), ShownDiffers(p, q, x))
    ensures OwnDiffers(p, q, x) && ShownDiffers(p, q, x) ==> (TaskOf(s', f) != Settled(Cached) <==> Covers(p, f, x))
  {
    hide ValidPlan, Inv, Fingerprint, Covers, Notices, OwnDiffers, ShownDiffers;
    ReachableKeeps(p, cache0, s);
    ReachableKeeps(q, s.cache, s');
    AtTask(p, cache0, s, f);
    FinishedSettled(q, s.cache, s', f);
    ChangeSeenIffNoticed(p, q, x, f);
    NoticingIsCovering(p, f, x);
  }
}
