/** `resolve`: the worklist that follows `#include` lines. */
module IncludeClosure {
  import opened Wrappers
  import opened IncludePaths

  /** An include text of a file with what `find` returns for it there. */
  datatype Include = Include(text: string, found: Option<Path>)

  datatype Seed = Seed(name: string, path: Path)

  /** The include lines that are read when `p` is processed. */
  function Lines(disk: Disk, p: Path): seq<Include> {
    if IsFile(disk, p) then
      var texts := TextsAt(disk, At(disk, p));
      seq(|texts|, i requires 0 <= i < |texts| => Include(texts[i], Find(disk, texts[i], p)))
    else []
  }

  ghost predicate Includes(disk: Disk, p: Path, q: Path) {
    exists i :: 0 <= i < |Lines(disk, p)| && Lines(disk, p)[i].found == Some(q)
  }

  ghost predicate IsSeed(seeds: seq<Seed>, p: Path) {
    exists i :: 0 <= i < |seeds| && seeds[i].path == p
  }

  /** A chain of includes from a seed to `p`. */
  ghost predicate IsRoute(disk: Disk, seeds: seq<Seed>, r: seq<Path>, p: Path) {
    && |r| > 0 && IsSeed(seeds, r[0]) && r[|r| - 1] == p
    && forall i :: 0 < i < |r| ==> Includes(disk, r[i - 1], r[i])
  }

  ghost predicate Reachable(disk: Disk, seeds: seq<Seed>, p: Path) {
    exists r :: IsRoute(disk, seeds, r, p)
  }

  lemma SeedReachable(disk: Disk, seeds: seq<Seed>, p: Path)
    requires IsSeed(seeds, p)
    ensures Reachable(disk, seeds, p)
  {
    assert IsRoute(disk, seeds, [p], p);
  }

  lemma IncludedReachable(disk: Disk, seeds: seq<Seed>, p: Path, q: Path)
    requires Reachable(disk, seeds, p) && Includes(disk, p, q)
    ensures Reachable(disk, seeds, q)
  {
    hide Includes, IsSeed;
    var r :| IsRoute(disk, seeds, r, p);
    assert IsRoute(disk, seeds, r + [q], q);
  }

  lemma {:induction false} RouteStays(disk: Disk, seeds: seq<Seed>, known: set<Path>, r: seq<Path>, p: Path)
    requires IsRoute(disk, seeds, r, p)
    requires forall q :: IsSeed(seeds, q) ==> q in known
    requires forall a, b :: a in known && Includes(disk, a, b) ==> b in known
    ensures p in known
    decreases |r|
  {
    hide Includes, IsSeed;
    if |r| > 1 {
      var n := |r| - 1;
      RouteStays(disk, seeds, known, r[..n], r[n - 1]);
      assert Includes(disk, r[n - 1], r[n]);
    }
  }

  /** The keys recorded for the files that `lines` finds, in order. */
  function DepKeys(lines: seq<Include>, pathToKey: map<Path, string>): seq<string> {
    if lines == [] then []
    else
      var init := DepKeys(lines[..|lines| - 1], pathToKey);
      var last := lines[|lines| - 1];
      if last.found.Some? && last.found.value in pathToKey then init + [pathToKey[last.found.value]] else init
  }

  /** `at` lists the lines that find something, in order, and `keys` the keys of what they find. */
  ghost predicate KeysOfFound(lines: seq<Include>, pathToKey: map<Path, string>, at: seq<nat>, keys: seq<string>) {
    && |at| == |keys|
    && (forall n :: 0 <= n < |at| ==> at[n] < |lines| && KeyOfLine(lines[at[n]], pathToKey, keys[n]))
    && (forall m, n :: 0 <= m < n < |at| ==> at[m] < at[n])
    && (forall i :: 0 <= i < |lines| && lines[i].found.Some? && lines[i].found.value in pathToKey ==> i in at)
  }

  predicate KeyOfLine(line: Include, pathToKey: map<Path, string>, key: string) {
    line.found.Some? && line.found.value in pathToKey && pathToKey[line.found.value] == key
  }

  lemma {:induction false} DepKeysAre(lines: seq<Include>, pathToKey: map<Path, string>) returns (at: seq<nat>)
    ensures KeysOfFound(lines, pathToKey, at, DepKeys(lines, pathToKey))
  {
    at := [];
    if lines != [] {
      var init, n := lines[..|lines| - 1], |lines| - 1;
      at := DepKeysAre(init, pathToKey);
      assert forall i :: 0 <= i < n ==> init[i] == lines[i];
      if lines[n].found.Some? && lines[n].found.value in pathToKey {
        at := at + [n];
      }
    }
  }

  // ------------------------------------------------ the tables

  datatype Tables = Tables(combined: map<string, Path>, pathToKey: map<Path, string>, queue: seq<Seed>)

  ghost predicate Queued(s: Tables, p: Path) {
    exists i :: 0 <= i < |s.queue| && s.queue[i].path == p
  }

  /** Every key names a tracked path, every tracked path and queued key has an entry. */
  ghost predicate KeysKnown(s: Tables) {
    && (forall p {:trigger s.pathToKey[p]} :: p in s.pathToKey ==> s.pathToKey[p] in s.combined)
    && (forall k {:trigger s.combined[k]} :: k in s.combined ==> s.combined[k] in s.pathToKey)
    && (forall i :: 0 <= i < |s.queue| ==> s.queue[i].name in s.combined && s.queue[i].path in s.pathToKey)
  }

  /** Looking a key up gives the file it was made for. */
  ghost predicate KeysFaithful(s: Tables) {
    && (forall p :: p in s.pathToKey ==> s.pathToKey[p] in s.combined && s.combined[s.pathToKey[p]] == p)
    && (forall i :: 0 <= i < |s.queue| ==> s.queue[i].name in s.combined && s.combined[s.queue[i].name] == s.queue[i].path)
  }

  /** A file under an absolute path. */
  predicate AbsoluteFile(disk: Disk, f: Path) {
    f.absolute && Normal(f) && IsFile(disk, f)
  }

  /** A key that spells the absolute path of a file denotes that file. */
  ghost predicate HonestSoFar(disk: Disk, s: Tables) {
    forall f :: AbsoluteFile(disk, f) && Str(f) in s.combined ==> s.combined[Str(f)] == f
  }

  /** The newly found file `f` under include text `text`. */
  function Track(s: Tables, text: string, f: Path): Tables {
    var key := if text in s.combined && s.combined[text] != f then Str(f) else text;
    Tables(s.combined[key := f], s.pathToKey[f := key], s.queue + [Seed(key, f)])
  }

  lemma TrackQueues(s: Tables, text: string, f: Path)
    ensures Queued(Track(s, text, f), f)
    ensures QueueKept(s, Track(s, text, f))
  {
    var s' := Track(s, text, f);
    assert s'.queue[|s.queue|].path == f;
    forall p | Queued(s, p) ensures Queued(s', p) {
      var i :| 0 <= i < |s.queue| && s.queue[i].path == p;
      assert s'.queue[i].path == p;
    }
  }

  lemma TrackKeeps(s: Tables, text: string, f: Path)
    requires KeysKnown(s) && f !in s.pathToKey
    ensures KeysKnown(Track(s, text, f))
    ensures s.combined.Keys <= Track(s, text, f).combined.Keys
    ensures Track(s, text, f).pathToKey == s.pathToKey[f := Track(s, text, f).pathToKey[f]]
  {
    hide Queued;
  }

  lemma NotTracked(s: Tables, f: Path)
    requires KeysKnown(s) && f !in s.pathToKey
    ensures forall k :: k in s.combined ==> s.combined[k] != f
  {
  }

  /** A step loses an earlier entry exactly when the include text and the path string are both keys already. */
  lemma OverwritesIff(s: Tables, text: string, f: Path)
    requires KeysKnown(s) && f !in s.pathToKey
    ensures SameEntries(s, Track(s, text, f)) <==> !(text in s.combined && Str(f) in s.combined)
  {
    hide Str;
    hide KeysKnown;
    NotTracked(s, f);
    if text in s.combined && Str(f) in s.combined {
      assert Track(s, text, f).combined[Str(f)] == f;
    }
  }

  /** `text` finds `f` somewhere: with absolute paths no file's path string is the key of another file. */
  lemma TrackFaithful(disk: Disk, s: Tables, text: string, from: Path)
    requires ValidIndex(disk) && KeysKnown(s) && KeysFaithful(s) && HonestSoFar(disk, s)
    requires Find(disk, text, from).Some? && Find(disk, text, from).value !in s.pathToKey
    requires AbsoluteFile(disk, Find(disk, text, from).value)
    ensures var s' := Track(s, text, Find(disk, text, from).value);
      KeysFaithful(s') && HonestSoFar(disk, s') && SameEntries(s, s')
  {
    hide IsFile, Find, Str, Normal;
    var f := Find(disk, text, from).value;
    assert Str(f) !in s.combined;
    forall g | AbsoluteFile(disk, g) && Str(g) in Track(s, text, f).combined ensures Track(s, text, f).combined[Str(g)] == g {
      if Str(g) == text {
        SpelledPathIsFound(disk, g, from);
      } else if Str(g) == Str(f) {
        StrInjective(g, f);
      }
    }
  }

  // ------------------------------------------------ one file

  ghost predicate FoundIn(lines: seq<Include>, q: Path) {
    exists i :: 0 <= i < |lines| && lines[i].found == Some(q)
  }

  ghost predicate AllTracked(lines: seq<Include>, pathToKey: map<Path, string>) {
    forall i :: 0 <= i < |lines| && lines[i].found.Some? ==> lines[i].found.value in pathToKey
  }

  ghost predicate Extends(m0: map<Path, string>, m: map<Path, string>) {
    forall p :: p in m0 ==> p in m && m[p] == m0[p]
  }

  ghost predicate QueueKept(s0: Tables, s: Tables) {
    forall p :: Queued(s0, p) ==> Queued(s, p)
  }

  /** A path tracked since `s0` waits in the queue, and one of `lines` found it. */
  ghost predicate NewOnesFound(s0: Tables, s: Tables, lines: seq<Include>) {
    forall p :: p in s.pathToKey && p !in s0.pathToKey ==> Queued(s, p) && FoundIn(lines, p)
  }

  /** The tables after reading `lines`, and what stayed. */
  ghost predicate Grown(s0: Tables, s: Tables, lines: seq<Include>) {
    && KeysKnown(s) && s0.combined.Keys <= s.combined.Keys
    && Extends(s0.pathToKey, s.pathToKey) && QueueKept(s0, s)
    && NewOnesFound(s0, s, lines) && AllTracked(lines, s.pathToKey)
  }

  ghost predicate SameEntries(s0: Tables, s: Tables) {
    forall k :: k in s0.combined ==> k in s.combined && s.combined[k] == s0.combined[k]
  }

  lemma {:induction false} DepKeysStable(lines: seq<Include>, m0: map<Path, string>, m: map<Path, string>)
    requires AllTracked(lines, m0) && Extends(m0, m)
    ensures DepKeys(lines, m) == DepKeys(lines, m0)
  {
    if lines != [] {
      DepKeysStable(lines[..|lines| - 1], m0, m);
    }
  }

  lemma {:induction false} DepKeysAreKeys(lines: seq<Include>, s: Tables)
    requires KeysKnown(s)
    ensures forall k :: k in DepKeys(lines, s.pathToKey) ==> k in s.combined
  {
    if lines != [] {
      DepKeysAreKeys(lines[..|lines| - 1], s);
    }
  }

  /** One more line that finds nothing, or a file that is tracked already. */
  lemma GrownByKnown(s0: Tables, s: Tables, lines: seq<Include>, n: nat)
    requires n < |lines| && (Grown(s0, s, lines[..n]) || Grown(s0, s, lines[..n + 1]))
    requires lines[n].found.Some? ==> lines[n].found.value in s.pathToKey
    ensures Grown(s0, s, lines[..n + 1])
    ensures DepKeys(lines[..n + 1], s.pathToKey) ==
            DepKeys(lines[..n], s.pathToKey) + if lines[n].found.Some? then [s.pathToKey[lines[n].found.value]] else []
  {
    hide KeysKnown, Extends, QueueKept, FoundIn;
    assert lines[..n + 1][..n] == lines[..n];
    FoundInPrefix(lines, n);
  }

  lemma FoundInPrefix(lines: seq<Include>, n: nat)
    requires n < |lines|
    ensures forall q :: FoundIn(lines[..n], q) ==> FoundIn(lines[..n + 1], q)
    ensures lines[n].found.Some? ==> FoundIn(lines[..n + 1], lines[n].found.value)
  {
    assert lines[..n + 1][n] == lines[n];
    forall q | FoundIn(lines[..n], q) ensures FoundIn(lines[..n + 1], q) {
      var i :| 0 <= i < n && lines[..n][i].found == Some(q);
      assert lines[..n + 1][i].found == Some(q);
    }
  }

  lemma NewOneFound(s0: Tables, s: Tables, lines: seq<Include>, n: nat)
    requires n < |lines| && NewOnesFound(s0, s, lines[..n]) && lines[n].found.Some?
    ensures NewOnesFound(s0, Track(s, lines[n].text, lines[n].found.value), lines[..n + 1])
  {
    hide Queued, FoundIn;
    TrackQueues(s, lines[n].text, lines[n].found.value);
    FoundInPrefix(lines, n);
  }

  lemma TrackedAll(s: Tables, lines: seq<Include>, n: nat)
    requires n < |lines| && lines[n].found.Some? && lines[n].found.value !in s.pathToKey
    requires AllTracked(lines[..n], s.pathToKey)
    ensures var m := Track(s, lines[n].text, lines[n].found.value).pathToKey;
      Extends(s.pathToKey, m) && AllTracked(lines[..n + 1], m)
  {
    var m := Track(s, lines[n].text, lines[n].found.value).pathToKey;
    assert Extends(s.pathToKey, m);
    var upTo := lines[..n + 1];
    forall i | 0 <= i < |upTo| && upTo[i].found.Some? ensures upTo[i].found.value in m {
      if i < n {
        assert lines[..n][i].found.value in s.pathToKey;
      }
    }
  }

  /** One more line that finds a new file. */
  lemma GrownByTrack(s0: Tables, s: Tables, lines: seq<Include>, n: nat)
    requires n < |lines| && Grown(s0, s, lines[..n])
    requires lines[n].found.Some? && lines[n].found.value !in s.pathToKey
    ensures Grown(s0, Track(s, lines[n].text, lines[n].found.value), lines[..n + 1])
    ensures DepKeys(lines[..n], Track(s, lines[n].text, lines[n].found.value).pathToKey) == DepKeys(lines[..n], s.pathToKey)
  {
    hide KeysKnown, Queued, Track, NewOnesFound, AllTracked;
    var f := lines[n].found.value;
    TrackKeeps(s, lines[n].text, f);
    TrackQueues(s, lines[n].text, f);
    NewOneFound(s0, s, lines, n);
    TrackedAll(s, lines, n);
    DepKeysStable(lines[..n], s.pathToKey, Track(s, lines[n].text, f).pathToKey);
  }

  lemma NothingRead(s0: Tables)
    requires KeysKnown(s0)
    ensures Grown(s0, s0, []) && SameEntries(s0, s0) && DepKeys([], s0.pathToKey) == []
  {
  }

  function TrackLine(s: Tables, line: Include): Tables {
    if line.found.Some? && line.found.value !in s.pathToKey then Track(s, line.text, line.found.value) else s
  }

  /** The tables after the lines of one file. */
  function ReadAll(s: Tables, lines: seq<Include>): Tables {
    if lines == [] then s else TrackLine(ReadAll(s, lines[..|lines| - 1]), lines[|lines| - 1])
  }

  lemma ReadNext(s0: Tables, lines: seq<Include>, n: nat)
    requires n < |lines|
    ensures ReadAll(s0, lines[..n + 1]) == TrackLine(ReadAll(s0, lines[..n]), lines[n])
  {
    assert lines[..n + 1][..n] == lines[..n];
  }

  lemma GrownByLine(s0: Tables, lines: seq<Include>, n: nat)
    requires n < |lines| && Grown(s0, ReadAll(s0, lines[..n]), lines[..n])
    ensures var s, s' := ReadAll(s0, lines[..n]), ReadAll(s0, lines[..n + 1]);
      && Grown(s0, s', lines[..n + 1])
      && (lines[n].found.Some? ==> lines[n].found.value in s'.pathToKey)
      && DepKeys(lines[..n + 1], s'.pathToKey) ==
         DepKeys(lines[..n], s.pathToKey) + if lines[n].found.Some? then [s'.pathToKey[lines[n].found.value]] else []
  {
    hide Grown, Track, DepKeys;
    ReadNext(s0, lines, n);
    var s, s' := ReadAll(s0, lines[..n]), ReadAll(s0, lines[..n + 1]);
    if lines[n].found.Some? && lines[n].found.value !in s.pathToKey {
      GrownByTrack(s0, s, lines, n);
      GrownTracks(s0, s', lines, n);
    }
    GrownByKnown(s0, s', lines, n);
  }

  lemma GrownTracks(s0: Tables, s: Tables, lines: seq<Include>, n: nat)
    requires n < |lines| && Grown(s0, s, lines[..n + 1]) && lines[n].found.Some?
    ensures lines[n].found.value in s.pathToKey
  {
    hide KeysKnown, Extends, QueueKept, NewOnesFound;
    assert lines[..n + 1][n] == lines[n];
  }

  lemma {:induction false} ReadGrows(s0: Tables, lines: seq<Include>)
    requires KeysKnown(s0)
    ensures Grown(s0, ReadAll(s0, lines), lines)
  {
    hide Grown, KeysKnown;
    if lines == [] {
      NothingRead(s0);
    } else {
      var n := |lines| - 1;
      ReadGrows(s0, lines[..n]);
      GrownByLine(s0, lines, n);
      assert lines[..n + 1] == lines;
    }
  }

  /** The lookup loop of `find` over the files of one name. */
  method FindInclude(disk: Disk, text: string, from: Path) returns (found: Option<Path>)
    ensures found == Find(disk, text, from)
  {
    hide Parse, IsFile, EndsWith, Str;
    var candidate := Join(Parent(from), text);
    if IsFile(disk, candidate) { return Some(candidate); }
    if text in disk.byRel { return Some(disk.byRel[text]); }
    var hits := Hits(disk, text);
    if |hits| == 1 { return Some(hits[0]); }
    for i := 0 to |hits|
      invariant FirstEnding(hits, text) == FirstEnding(hits[i..], text)
    {
      if EndsWith(Str(hits[i]), text) { return Some(hits[i]); }
      assert hits[i..][1..] == hits[i + 1..];
    }
    assert hits[|hits|..] == [];
    found := if hits != [] then Some(hits[0]) else None;
  }

  /** The inner loop: reads the include lines of the file `p`. */
  method ReadLines(disk: Disk, p: Path, s0: Tables) returns (deps: seq<string>, s: Tables)
    requires IsFile(disk, p) && KeysKnown(s0)
    ensures s == ReadAll(s0, Lines(disk, p)) && deps == DepKeys(Lines(disk, p), s.pathToKey)
    ensures exists at :: KeysOfFound(Lines(disk, p), s.pathToKey, at, deps)
    ensures Grown(s0, s, Lines(disk, p))
  {
    hide KeysOfFound, Grown, KeysKnown, DepKeys, Find, IsFile;
    ghost var lines := Lines(disk, p);
    var texts := TextsAt(disk, At(disk, p));
    deps, s := [], s0;
    assert lines[..0] == [];
    NothingRead(s0);
    var n := 0;
    while n < |texts|
      invariant 0 <= n <= |texts| == |lines|
      invariant s == ReadAll(s0, lines[..n]) && Grown(s0, s, lines[..n])
      invariant deps == DepKeys(lines[..n], s.pathToKey)
    {
      GrownByLine(s0, lines, n);
      ReadNext(s0, lines, n);
      var text := texts[n];
      var found := FindInclude(disk, text, p);
      if found.Some? {
        var f := found.value;
        if f !in s.pathToKey {
          // A new file; the same text for another file makes its path the key.
          var key := text;
          if key in s.combined && s.combined[key] != f {
            key := Str(f);
          }
          s := Tables(s.combined[key := f], s.pathToKey[f := key], s.queue + [Seed(key, f)]);
        }
        deps := deps + [s.pathToKey[f]];
      }
      n := n + 1;
    }
    assert lines[..n] == lines;
    ghost var at := DepKeysAre(lines, s.pathToKey);
  }

  // ------------------------------------------------ faithful keys

  ghost predicate AbsoluteTracked(disk: Disk, s: Tables) {
    forall p :: p in s.pathToKey && IsFile(disk, p) ==> p.absolute && Normal(p)
  }

  ghost predicate FaithfulTables(disk: Disk, s: Tables) {
    KeysFaithful(s) && HonestSoFar(disk, s) && AbsoluteTracked(disk, s)
  }

  lemma LineFaithful(disk: Disk, s: Tables, text: string, from: Path)
    requires ValidIndex(disk) && KeysKnown(s) && FaithfulTables(disk, s) && AbsoluteFile(disk, from)
    ensures var s' := TrackLine(s, Include(text, Find(disk, text, from)));
      FaithfulTables(disk, s') && SameEntries(s, s')
  {
    hide KeysKnown, KeysFaithful, HonestSoFar, Find, IsFile, Normal;
    var found := Find(disk, text, from);
    if found.Some? && found.value !in s.pathToKey {
      FoundIsFile(disk, text, from);
      TrackFaithful(disk, s, text, from);
    }
  }

  lemma {:induction false} ReadFaithful(disk: Disk, s0: Tables, p: Path, n: nat)
    requires ValidIndex(disk) && KeysKnown(s0) && FaithfulTables(disk, s0) && AbsoluteFile(disk, p) && n <= |Lines(disk, p)|
    ensures FaithfulTables(disk, ReadAll(s0, Lines(disk, p)[..n])) && SameEntries(s0, ReadAll(s0, Lines(disk, p)[..n]))
  {
    hide KeysKnown, FaithfulTables, Find, AbsoluteFile, IsFile, TrackLine, Grown;
    var lines := Lines(disk, p);
    if n > 0 {
      ReadFaithful(disk, s0, p, n - 1);
      ReadNext(s0, lines, n - 1);
      ReadGrows(s0, lines[..n - 1]);
      GrownIsKnown(s0, ReadAll(s0, lines[..n - 1]), lines[..n - 1]);
      LineFaithful(disk, ReadAll(s0, lines[..n - 1]), lines[n - 1].text, p);
      LineIs(disk, p, n - 1);
    }
  }

  lemma GrownIsKnown(s0: Tables, s: Tables, lines: seq<Include>)
    requires Grown(s0, s, lines)
    ensures KeysKnown(s)
  {
  }

  lemma LineIs(disk: Disk, p: Path, i: nat)
    requires i < |Lines(disk, p)|
    ensures Lines(disk, p)[i] == Include(Lines(disk, p)[i].text, Find(disk, Lines(disk, p)[i].text, p))
  {
  }

  // ------------------------------------------------ the seeds

  /** A dictionary has one entry per name. */
  ghost predicate DistinctNames(seeds: seq<Seed>) {
    forall i, j :: 0 <= i < j < |seeds| ==> seeds[i].name != seeds[j].name
  }

  ghost predicate Given(seeds: seq<Seed>, name: string, p: Path) {
    exists i :: 0 <= i < |seeds| && seeds[i] == Seed(name, p)
  }

  ghost predicate NamesEntered(combined: map<string, Path>, seeds: seq<Seed>) {
    && (forall k :: k in combined ==> Given(seeds, k, combined[k]))
    && (forall i :: 0 <= i < |seeds| ==> seeds[i].name in combined)
  }

  ghost predicate PathsEntered(pathToKey: map<Path, string>, seeds: seq<Seed>) {
    && (forall p :: p in pathToKey ==> Given(seeds, pathToKey[p], p))
    && (forall i :: 0 <= i < |seeds| ==> seeds[i].path in pathToKey)
  }

  ghost predicate SeededBy(s: Tables, seeds: seq<Seed>) {
    s.queue == seeds && NamesEntered(s.combined, seeds) && PathsEntered(s.pathToKey, seeds)
  }

  lemma SeededIsKnown(s: Tables, seeds: seq<Seed>)
    requires SeededBy(s, seeds)
    ensures KeysKnown(s)
  {
  }

  lemma SeededIsQueued(s: Tables, seeds: seq<Seed>)
    requires SeededBy(s, seeds)
    ensures forall p :: p in s.pathToKey ==> IsSeed(seeds, p) && Queued(s, p)
    ensures forall p :: IsSeed(seeds, p) ==> p in s.pathToKey
  {
    hide NamesEntered;
    forall p | p in s.pathToKey ensures IsSeed(seeds, p) && Queued(s, p) {
      var i :| 0 <= i < |seeds| && seeds[i] == Seed(s.pathToKey[p], p);
      assert seeds[i].path == p && s.queue[i].path == p;
    }
  }

  lemma DistinctEntry(combined: map<string, Path>, seeds: seq<Seed>, name: string, p: Path)
    requires DistinctNames(seeds) && NamesEntered(combined, seeds) && Given(seeds, name, p)
    ensures name in combined && combined[name] == p
  {
    var i :| 0 <= i < |seeds| && seeds[i] == Seed(name, p);
    assert name == seeds[i].name;
    var j :| 0 <= j < |seeds| && seeds[j] == Seed(name, combined[name]);
    assert i == j;
  }

  lemma SeedIsGiven(seeds: seq<Seed>, i: nat)
    requires i < |seeds|
    ensures Given(seeds, seeds[i].name, seeds[i].path)
  {
    assert seeds[i] == Seed(seeds[i].name, seeds[i].path);
  }

  /** The tables after the seeding loop. */
  function Seeded(seeds: seq<Seed>): Tables {
    if seeds == [] then Tables(map[], map[], [])
    else
      var s, seed := Seeded(seeds[..|seeds| - 1]), seeds[|seeds| - 1];
      Tables(s.combined[seed.name := seed.path], s.pathToKey[seed.path := seed.name], s.queue + [seed])
  }

  method SeedTables(seeds: seq<Seed>) returns (s: Tables)
    ensures s == Seeded(seeds)
  {
    s := Tables(map[], map[], []);
    var n := 0;
    while n < |seeds|
      invariant 0 <= n <= |seeds| && s == Seeded(seeds[..n])
    {
      assert seeds[..n + 1][..n] == seeds[..n];
      s := Tables(s.combined[seeds[n].name := seeds[n].path], s.pathToKey[seeds[n].path := seeds[n].name], s.queue + [seeds[n]]);
      n := n + 1;
    }
    assert seeds[..n] == seeds;
  }

  lemma GivenInPrefix(seeds: seq<Seed>, n: nat)
    requires n < |seeds|
    ensures forall k, p :: Given(seeds[..n], k, p) ==> Given(seeds[..n + 1], k, p)
    ensures Given(seeds[..n + 1], seeds[n].name, seeds[n].path)
  {
    assert seeds[..n + 1][n] == seeds[n];
    forall k, p | Given(seeds[..n], k, p) ensures Given(seeds[..n + 1], k, p) {
      var i :| 0 <= i < n && seeds[..n][i] == Seed(k, p);
      assert seeds[..n + 1][i] == Seed(k, p);
    }
  }

  lemma SeedStep(s: Tables, seeds: seq<Seed>, n: nat)
    requires n < |seeds| && SeededBy(s, seeds[..n])
    ensures SeededBy(Tables(s.combined[seeds[n].name := seeds[n].path], s.pathToKey[seeds[n].path := seeds[n].name], s.queue + [seeds[n]]),
                     seeds[..n + 1])
  {
    hide Given;
    GivenInPrefix(seeds, n);
    assert seeds[..n + 1] == seeds[..n] + [seeds[n]];
    var combined := s.combined[seeds[n].name := seeds[n].path];
    var pathToKey := s.pathToKey[seeds[n].path := seeds[n].name];
    forall i | 0 <= i < n + 1 ensures seeds[i].name in combined && seeds[i].path in pathToKey {
      if i < n {
        assert seeds[..n][i] == seeds[i];
      }
    }
    assert NamesEntered(combined, seeds[..n + 1]);
    assert PathsEntered(pathToKey, seeds[..n + 1]);
  }

  lemma {:induction false} SeededEnters(seeds: seq<Seed>)
    ensures SeededBy(Seeded(seeds), seeds)
  {
    if seeds != [] {
      var n := |seeds| - 1;
      SeededEnters(seeds[..n]);
      SeedStep(Seeded(seeds[..n]), seeds, n);
      assert seeds[..n + 1] == seeds;
    }
  }

  /** The names of the project files are relative: a file name, or the directory's name in front of it. */
  ghost predicate RelativeNames(seeds: seq<Seed>) {
    forall i :: 0 <= i < |seeds| ==> seeds[i].name == "" || seeds[i].name[0] != '/'
  }

  /** The seeds that are files are given by absolute paths. */
  ghost predicate AbsoluteSeeds(disk: Disk, seeds: seq<Seed>) {
    forall i :: 0 <= i < |seeds| && IsFile(disk, seeds[i].path) ==> seeds[i].path.absolute
  }

  ghost predicate NormalSeeds(seeds: seq<Seed>) {
    forall i :: 0 <= i < |seeds| ==> Normal(seeds[i].path)
  }

  lemma SeededIsFaithful(disk: Disk, s: Tables, seeds: seq<Seed>)
    requires SeededBy(s, seeds) && DistinctNames(seeds)
    ensures KeysFaithful(s)
  {
    hide DistinctNames, NamesEntered, Given;
    forall p | p in s.pathToKey ensures s.pathToKey[p] in s.combined && s.combined[s.pathToKey[p]] == p {
      DistinctEntry(s.combined, seeds, s.pathToKey[p], p);
    }
    forall i | 0 <= i < |seeds| ensures seeds[i].name in s.combined && s.combined[seeds[i].name] == seeds[i].path {
      SeedIsGiven(seeds, i);
      DistinctEntry(s.combined, seeds, seeds[i].name, seeds[i].path);
    }
  }

  lemma SeededIsHonest(disk: Disk, s: Tables, seeds: seq<Seed>)
    requires SeededBy(s, seeds) && RelativeNames(seeds) && AbsoluteSeeds(disk, seeds) && NormalSeeds(seeds)
    ensures HonestSoFar(disk, s) && AbsoluteTracked(disk, s)
  {
    hide IsFile, Normal;
    forall f | AbsoluteFile(disk, f) ensures Str(f) !in s.combined {
      assert Str(f)[0] == '/';
    }
  }

  // ------------------------------------------------ the worklist

  type Deps = map<string, seq<string>>

  ghost predicate OnlyReachable(disk: Disk, seeds: seq<Seed>, s: Tables) {
    forall p :: p in s.pathToKey ==> Reachable(disk, seeds, p)
  }

  ghost predicate VisitedOrWaiting(s: Tables, visited: set<Path>) {
    && visited <= s.pathToKey.Keys
    && forall p :: p in s.pathToKey ==> p in visited || Queued(s, p)
  }

  ghost predicate VisitedAreRead(disk: Disk, s: Tables, visited: set<Path>) {
    forall p :: p in visited ==> AllTracked(Lines(disk, p), s.pathToKey)
  }

  /** Both ends of a recorded dependency are keys of the result. */
  ghost predicate DepsKnown(s: Tables, deps: Deps) {
    forall k :: k in deps ==> k in s.combined && forall d :: d in deps[k] ==> d in s.combined
  }

  /** `k` is the entry of the file `p`, and lists exactly the keys of the files it includes. */
  ghost predicate Recorded(disk: Disk, s: Tables, deps: Deps, p: Path, k: string) {
    k in deps && k in s.combined && s.combined[k] == p && deps[k] == DepKeys(Lines(disk, p), s.pathToKey)
  }

  ghost predicate VisitedRecorded(disk: Disk, s: Tables, deps: Deps, visited: set<Path>) {
    && (forall p :: p in visited && IsFile(disk, p) ==> exists k :: Recorded(disk, s, deps, p, k))
    && (forall k :: k in deps ==> k in s.combined && s.combined[k] in visited && IsFile(disk, s.combined[k]))
  }

  lemma GrownReachable(disk: Disk, seeds: seq<Seed>, s0: Tables, s: Tables, p: Path)
    requires OnlyReachable(disk, seeds, s0) && p in s0.pathToKey && IsFile(disk, p)
    requires NewOnesFound(s0, s, Lines(disk, p))
    ensures OnlyReachable(disk, seeds, s)
  {
    hide Reachable, Queued;
    forall q | q in s.pathToKey && q !in s0.pathToKey ensures Reachable(disk, seeds, q) {
      assert FoundIn(Lines(disk, p), q);
      assert Includes(disk, p, q);
      IncludedReachable(disk, seeds, p, q);
    }
  }

  lemma GrownRead(disk: Disk, s0: Tables, s: Tables, visited: set<Path>)
    requires VisitedAreRead(disk, s0, visited) && Extends(s0.pathToKey, s.pathToKey)
    ensures VisitedAreRead(disk, s, visited)
  {
    forall p | p in visited ensures AllTracked(Lines(disk, p), s.pathToKey) {
      assert AllTracked(Lines(disk, p), s0.pathToKey);
    }
  }

  lemma GrownRecorded(disk: Disk, s0: Tables, s: Tables, deps: Deps, visited: set<Path>)
    requires VisitedAreRead(disk, s0, visited) && VisitedRecorded(disk, s0, deps, visited)
    requires Extends(s0.pathToKey, s.pathToKey) && SameEntries(s0, s)
    ensures VisitedRecorded(disk, s, deps, visited)
  {
    hide Lines, AllTracked, Extends, DepKeys;
    forall p | p in visited && IsFile(disk, p) ensures exists k :: Recorded(disk, s, deps, p, k) {
      var k :| Recorded(disk, s0, deps, p, k);
      DepKeysStable(Lines(disk, p), s0.pathToKey, s.pathToKey);
      assert Recorded(disk, s, deps, p, k);
    }
  }

  /** Recording the file `p` under its own key leaves the entries of other files alone. */
  lemma RecordOne(disk: Disk, s: Tables, deps: Deps, visited: set<Path>, p: Path, key: string)
    requires VisitedRecorded(disk, s, deps, visited) && p !in visited && IsFile(disk, p)
    requires key in s.combined && s.combined[key] == p
    ensures VisitedRecorded(disk, s, deps[key := DepKeys(Lines(disk, p), s.pathToKey)], visited + {p})
  {
    hide DepKeys, Lines;
    var deps' := deps[key := DepKeys(Lines(disk, p), s.pathToKey)];
    forall q | q in visited + {p} && IsFile(disk, q) ensures exists k :: Recorded(disk, s, deps', q, k) {
      if q == p {
        assert Recorded(disk, s, deps', q, key);
      } else {
        var k :| Recorded(disk, s, deps, q, k);
        assert Recorded(disk, s, deps', q, k);
      }
    }
  }

  /** The result holds exactly the reachable files once nothing waits. */
  lemma ClosedIsReachable(disk: Disk, seeds: seq<Seed>, s: Tables, visited: set<Path>, p: Path)
    requires s.queue == [] && VisitedOrWaiting(s, visited) && VisitedAreRead(disk, s, visited)
    requires forall q :: IsSeed(seeds, q) ==> q in s.pathToKey
    requires Reachable(disk, seeds, p)
    ensures p in s.pathToKey
  {
    var r :| IsRoute(disk, seeds, r, p);
    forall a, b | a in s.pathToKey.Keys && Includes(disk, a, b) ensures b in s.pathToKey.Keys {
      assert a in visited;
    }
    RouteStays(disk, seeds, s.pathToKey.Keys, r, p);
  }

  /** What every turn of the worklist keeps. */
  ghost predicate Sound(disk: Disk, seeds: seq<Seed>, s: Tables, visited: set<Path>) {
    && KeysKnown(s) && OnlyReachable(disk, seeds, s) && VisitedOrWaiting(s, visited)
    && (forall q :: IsSeed(seeds, q) ==> q in s.pathToKey)
  }

  ghost predicate Faithful(disk: Disk, s: Tables, deps: Deps, visited: set<Path>) {
    FaithfulTables(disk, s) && VisitedRecorded(disk, s, deps, visited)
  }

  function Popped(s: Tables): Tables
    requires s.queue != []
  {
    s.(queue := s.queue[1..])
  }

  lemma PoppedQueue(s: Tables, p: Path)
    requires s.queue != [] && Queued(s, p) && p != s.queue[0].path
    ensures Queued(Popped(s), p)
  {
    var i :| 0 <= i < |s.queue| && s.queue[i].path == p;
    assert Popped(s).queue[i - 1].path == p;
  }

  lemma PopKeepsWaiting(s: Tables, visited: set<Path>)
    requires s.queue != [] && s.queue[0].path in s.pathToKey && VisitedOrWaiting(s, visited)
    ensures VisitedOrWaiting(Popped(s), visited + {s.queue[0].path})
  {
    hide Queued;
    forall p | p in s.pathToKey && p !in visited && p != s.queue[0].path ensures Queued(Popped(s), p) {
      PoppedQueue(s, p);
    }
  }

  lemma PopKeepsKeys(s: Tables)
    requires s.queue != [] && KeysKnown(s)
    ensures KeysKnown(Popped(s)) && s.queue[0].name in s.combined && s.queue[0].path in s.pathToKey
  {
    assert forall i :: 0 <= i < |s.queue| - 1 ==> Popped(s).queue[i] == s.queue[i + 1];
  }

  lemma PopKeepsFaith(disk: Disk, s: Tables)
    requires s.queue != [] && FaithfulTables(disk, s)
    ensures FaithfulTables(disk, Popped(s))
    ensures s.queue[0].name in s.combined && s.combined[s.queue[0].name] == s.queue[0].path
  {
    hide IsFile, Str;
    assert forall i :: 0 <= i < |s.queue| - 1 ==> Popped(s).queue[i] == s.queue[i + 1];
  }

  lemma PopKeeps(disk: Disk, seeds: seq<Seed>, s: Tables, deps: Deps, visited: set<Path>)
    requires s.queue != [] && Sound(disk, seeds, s, visited) && VisitedAreRead(disk, s, visited) && DepsKnown(s, deps)
    ensures Sound(disk, seeds, Popped(s), visited + {s.queue[0].path}) && KeysKnown(Popped(s))
    ensures VisitedAreRead(disk, Popped(s), visited) && DepsKnown(Popped(s), deps)
    ensures s.queue[0].name in s.combined && s.queue[0].path in s.pathToKey
  {
    hide Reachable, IsSeed, KeysKnown, VisitedOrWaiting, VisitedRecorded, VisitedAreRead, DepsKnown;
    PopKeepsKeys(s);
    PopKeepsWaiting(s, visited);
    PoppedSame(disk, s, deps, visited);
  }

  lemma PopKeepsFaithful(disk: Disk, s: Tables, deps: Deps, visited: set<Path>)
    requires s.queue != [] && VisitedAreRead(disk, s, visited) && DepsKnown(s, deps) && Faithful(disk, s, deps, visited)
    ensures Faithful(disk, Popped(s), deps, visited)
    ensures s.queue[0].name in s.combined && s.combined[s.queue[0].name] == s.queue[0].path
  {
    hide FaithfulTables, VisitedRecorded, VisitedAreRead, DepsKnown;
    PoppedSame(disk, s, deps, visited);
    PopKeepsFaith(disk, s);
  }

  lemma GrownKeeps(disk: Disk, seeds: seq<Seed>, s0: Tables, s: Tables, visited: set<Path>, p: Path)
    requires Sound(disk, seeds, s0, visited) && p in s0.pathToKey && IsFile(disk, p)
    requires Grown(s0, s, Lines(disk, p))
    ensures Sound(disk, seeds, s, visited)
  {
    hide Reachable, IsSeed, KeysKnown, FoundIn, Lines, OnlyReachable, Queued;
    GrownReachable(disk, seeds, s0, s, p);
  }

  lemma ReadAfter(disk: Disk, s0: Tables, s: Tables, visited: set<Path>, p: Path)
    requires VisitedAreRead(disk, s0, visited) && Grown(s0, s, Lines(disk, p))
    ensures VisitedAreRead(disk, s, visited + {p})
  {
    hide AllTracked, KeysKnown, NewOnesFound, QueueKept;
    GrownRead(disk, s0, s, visited);
  }

  /** Recording one file that was read; if the tables were faithful and stay so, the record is as well. */
  lemma RecordRead(disk: Disk, seeds: seq<Seed>, s0: Tables, s: Tables, deps: Deps, visited: set<Path>, p: Path, key: string)
    requires IsFile(disk, p) && p !in visited && key in s0.combined
    requires Grown(s0, s, Lines(disk, p)) && VisitedAreRead(disk, s0, visited)
    requires DepsKnown(s0, deps)
    ensures DepsKnown(s, deps[key := DepKeys(Lines(disk, p), s.pathToKey)])
    ensures Faithful(disk, s0, deps, visited) && s0.combined[key] == p && FaithfulTables(disk, s) && SameEntries(s0, s) ==>
      Faithful(disk, s, deps[key := DepKeys(Lines(disk, p), s.pathToKey)], visited + {p})
  {
    hide KeysKnown, FaithfulTables, VisitedRecorded, VisitedAreRead, Lines, DepKeys, NewOnesFound, QueueKept, Extends, AllTracked;
    DepKeysAreKeys(Lines(disk, p), s);
    if Faithful(disk, s0, deps, visited) && s0.combined[key] == p && SameEntries(s0, s) {
      GrownRecorded(disk, s0, s, deps, visited);
      RecordOne(disk, s, deps, visited, p, key);
    }
  }

  /** A visited path that is no readable file has no lines and no entry. */
  lemma SkipUnreadable(disk: Disk, s: Tables, deps: Deps, visited: set<Path>, p: Path)
    requires !IsFile(disk, p) && VisitedAreRead(disk, s, visited)
    ensures VisitedAreRead(disk, s, visited + {p})
    ensures Faithful(disk, s, deps, visited) ==> Faithful(disk, s, deps, visited + {p})
  {
    hide DepKeys, FaithfulTables;
  }

  lemma PoppedSame(disk: Disk, s: Tables, deps: Deps, visited: set<Path>)
    requires s.queue != [] && VisitedAreRead(disk, s, visited) && DepsKnown(s, deps)
    ensures VisitedAreRead(disk, Popped(s), visited) && DepsKnown(Popped(s), deps)
    ensures VisitedRecorded(disk, s, deps, visited) ==> VisitedRecorded(disk, Popped(s), deps, visited)
  {
    hide Lines, DepKeys;
    if VisitedRecorded(disk, s, deps, visited) {
      forall p | p in visited && IsFile(disk, p) ensures exists k :: Recorded(disk, Popped(s), deps, p, k) {
        var k :| Recorded(disk, s, deps, p, k);
        assert Recorded(disk, Popped(s), deps, p, k);
      }
    }
  }

  /** The invariant after a file was read into `s` and recorded under `key`. */
  lemma ReadKeeps(disk: Disk, seeds: seq<Seed>, s0: Tables, s: Tables, deps: Deps, visited: set<Path>, p: Path, key: string)
    requires IsFile(disk, p) && p !in visited && key in s0.combined && p in s0.pathToKey
    requires Sound(disk, seeds, s0, visited + {p}) && VisitedAreRead(disk, s0, visited) && DepsKnown(s0, deps)
    requires Grown(s0, s, Lines(disk, p))
    ensures Sound(disk, seeds, s, visited + {p}) && VisitedAreRead(disk, s, visited + {p})
    ensures DepsKnown(s, deps[key := DepKeys(Lines(disk, p), s.pathToKey)])
    ensures Faithful(disk, s0, deps, visited) && s0.combined[key] == p && FaithfulTables(disk, s) && SameEntries(s0, s) ==>
      Faithful(disk, s, deps[key := DepKeys(Lines(disk, p), s.pathToKey)], visited + {p})
  {
    hide *;
    GrownKeeps(disk, seeds, s0, s, visited + {p}, p);
    ReadAfter(disk, s0, s, visited, p);
    RecordRead(disk, seeds, s0, s, deps, visited, p, key);
  }

  lemma SeededReachable(disk: Disk, seeds: seq<Seed>, s: Tables)
    requires forall p :: p in s.pathToKey ==> IsSeed(seeds, p)
    ensures OnlyReachable(disk, seeds, s)
  {
    hide Reachable, IsSeed;
    forall p | p in s.pathToKey ensures Reachable(disk, seeds, p) {
      SeedReachable(disk, seeds, p);
    }
  }

  lemma SeededSound(disk: Disk, seeds: seq<Seed>, s: Tables)
    requires SeededBy(s, seeds)
    ensures Sound(disk, seeds, s, {})
  {
    hide SeededBy, KeysKnown, OnlyReachable, Queued, IsSeed;
    SeededIsKnown(s, seeds);
    SeededIsQueued(s, seeds);
    SeededReachable(disk, seeds, s);
  }

  /** The tracked paths are exactly the reachable ones; they have keys, and keys lead to reachable paths. */
  ghost predicate TracksReachable(disk: Disk, seeds: seq<Seed>, s: Tables) {
    && (forall p :: p in s.pathToKey <==> Reachable(disk, seeds, p))
    && (forall p :: p in s.pathToKey ==> s.pathToKey[p] in s.combined)
    && (forall k :: k in s.combined ==> Reachable(disk, seeds, s.combined[k]))
  }

  lemma Finished(disk: Disk, seeds: seq<Seed>, s: Tables, visited: set<Path>)
    requires s.queue == [] && Sound(disk, seeds, s, visited) && VisitedAreRead(disk, s, visited)
    ensures visited == s.pathToKey.Keys && TracksReachable(disk, seeds, s)
  {
    hide Reachable, IsSeed, VisitedAreRead;
    forall p | Reachable(disk, seeds, p) ensures p in s.pathToKey {
      ClosedIsReachable(disk, seeds, s, visited, p);
    }
  }

  // ------------------------------------------------ turn by turn

  datatype Run = Run(s: Tables, visited: set<Path>, deps: Deps)

  function Begin(seeds: seq<Seed>): Run {
    Run(Seeded(seeds), {}, map[])
  }

  /** One turn of the worklist; nothing changes once the queue is empty. */
  function Turn(disk: Disk, r: Run): Run {
    if r.s.queue == [] then r
    else
      var current, s := r.s.queue[0], Popped(r.s);
      if current.path in r.visited then Run(s, r.visited, r.deps)
      else if !IsFile(disk, current.path) then Run(s, r.visited + {current.path}, r.deps)
      else
        var grown := ReadAll(s, Lines(disk, current.path));
        Run(grown, r.visited + {current.path}, r.deps[current.name := DepKeys(Lines(disk, current.path), grown.pathToKey)])
  }

  function Turns(disk: Disk, r: Run, n: nat): Run {
    if n == 0 then r else Turn(disk, Turns(disk, r, n - 1))
  }

  ghost predicate SoundRun(disk: Disk, seeds: seq<Seed>, r: Run) {
    Sound(disk, seeds, r.s, r.visited) && VisitedAreRead(disk, r.s, r.visited) && DepsKnown(r.s, r.deps)
  }

  ghost predicate FaithfulRun(disk: Disk, r: Run) {
    Faithful(disk, r.s, r.deps, r.visited)
  }

  lemma BeginIsSound(disk: Disk, seeds: seq<Seed>)
    ensures SoundRun(disk, seeds, Begin(seeds))
  {
    hide Sound, SeededBy, Seeded;
    SeededEnters(seeds);
    SeededSound(disk, seeds, Seeded(seeds));
  }

  lemma BeginIsFaithful(disk: Disk, seeds: seq<Seed>)
    requires DistinctNames(seeds) && RelativeNames(seeds) && AbsoluteSeeds(disk, seeds) && NormalSeeds(seeds)
    ensures FaithfulRun(disk, Begin(seeds))
  {
    hide SeededBy, Seeded, DistinctNames, RelativeNames, AbsoluteSeeds, NormalSeeds, KeysFaithful, HonestSoFar, AbsoluteTracked;
    SeededEnters(seeds);
    SeededIsFaithful(disk, Seeded(seeds), seeds);
    SeededIsHonest(disk, Seeded(seeds), seeds);
  }

  lemma TurnKeeps(disk: Disk, seeds: seq<Seed>, r: Run)
    requires SoundRun(disk, seeds, r)
    ensures SoundRun(disk, seeds, Turn(disk, r))
    ensures ValidIndex(disk) && FaithfulRun(disk, r) ==> FaithfulRun(disk, Turn(disk, r))
  {
    hide Sound, VisitedAreRead, DepsKnown, FaithfulTables, VisitedRecorded, Popped, ReadAll, Lines, DepKeys, ValidIndex, IsFile,
         Grown, KeysKnown, SameEntries;
    if r.s.queue != [] {
      var current, s := r.s.queue[0], Popped(r.s);
      PopKeeps(disk, seeds, r.s, r.deps, r.visited);
      if FaithfulRun(disk, r) {
        PopKeepsFaithful(disk, r.s, r.deps, r.visited);
      }
      if current.path in r.visited {
        assert r.visited + {current.path} == r.visited;
      } else if IsFile(disk, current.path) {
        var lines := Lines(disk, current.path);
        ReadGrows(s, lines);
        PoppedSame(disk, r.s, r.deps, r.visited);
        SameNames(r.s);
        if ValidIndex(disk) && FaithfulRun(disk, r) {
          TrackedIsAbsolute(disk, s, current.path);
          ReadFaithful(disk, s, current.path, |lines|);
          assert lines[..|lines|] == lines;
        }
        ReadKeeps(disk, seeds, s, ReadAll(s, lines), r.deps, r.visited, current.path, current.name);
      } else {
        SkipUnreadable(disk, s, r.deps, r.visited, current.path);
      }
    }
  }

  lemma SameNames(s: Tables)
    requires s.queue != []
    ensures Popped(s).combined == s.combined && Popped(s).pathToKey == s.pathToKey
  {
  }

  lemma TrackedIsAbsolute(disk: Disk, s: Tables, p: Path)
    requires FaithfulTables(disk, s) && p in s.pathToKey && IsFile(disk, p)
    ensures AbsoluteFile(disk, p)
  {
    hide KeysFaithful, HonestSoFar, IsFile, Normal;
  }

  lemma {:induction false} TurnsKeep(disk: Disk, seeds: seq<Seed>, n: nat)
    ensures SoundRun(disk, seeds, Turns(disk, Begin(seeds), n))
  {
    hide SoundRun, Turn, Begin;
    if n == 0 {
      BeginIsSound(disk, seeds);
    } else {
      TurnsKeep(disk, seeds, n - 1);
      TurnKeeps(disk, seeds, Turns(disk, Begin(seeds), n - 1));
    }
  }

  /** If the seeds that are files are given by absolute paths, every tracked file keeps its own key, in every turn. */
  lemma {:induction false} TurnsKeepFaith(disk: Disk, seeds: seq<Seed>, n: nat)
    requires ValidIndex(disk) && DistinctNames(seeds) && RelativeNames(seeds) && AbsoluteSeeds(disk, seeds) && NormalSeeds(seeds)
    ensures FaithfulRun(disk, Turns(disk, Begin(seeds), n))
  {
    hide SoundRun, Turn, Begin, FaithfulRun, ValidIndex, DistinctNames, RelativeNames, AbsoluteSeeds, NormalSeeds;
    if n == 0 {
      BeginIsFaithful(disk, seeds);
    } else {
      TurnsKeepFaith(disk, seeds, n - 1);
      TurnsKeep(disk, seeds, n - 1);
      TurnKeeps(disk, seeds, Turns(disk, Begin(seeds), n - 1));
    }
  }
}
