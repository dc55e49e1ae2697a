/** When the include walk ends: it follows paths, and one file can have more and more of them. */
module IncludeWalk {
  import opened Wrappers
  import opened Orders
  import opened IncludePaths
  import opened IncludeClosure

  // ------------------------------------------------ includes that are found relative to the including file

  /** The file at `from` includes `text`, and that relative to its directory is the file at `to`. */
  datatype Hop = Hop(from: Location, text: string, to: Location)

  ghost predicate IsHop(disk: Disk, h: Hop) {
    && h.from in disk.files && h.from != [] && h.text in TextsAt(disk, h.from)
    && !Parse(h.text).absolute && CanNameFile(Parse(h.text))
    && Walk(disk, h.from[..|h.from| - 1], Parse(h.text).parts) == Some(h.to) && h.to in disk.files
  }

  ghost predicate Leads(disk: Disk, a: Location, hops: seq<Hop>, b: Location)
    decreases |hops|
  {
    if hops == [] then a == b else hops[0].from == a && IsHop(disk, hops[0]) && Leads(disk, hops[0].to, hops[1..], b)
  }

  /** How many components the hops add to a path. */
  function Growth(hops: seq<Hop>): int {
    if hops == [] then 0 else |Parse(hops[0].text).parts| - 1 + Growth(hops[1..])
  }

  predicate Dotted(text: string) {
    ".." in Parse(text).parts
  }

  ghost predicate SomeDotted(hops: seq<Hop>) {
    exists i :: 0 <= i < |hops| && Dotted(hops[i].text)
  }

  /** A reachable file includes itself through files found relative to each other, once with `..`. */
  ghost predicate DottedCycle(disk: Disk, seeds: seq<Seed>) {
    exists p, hops :: Reachable(disk, seeds, p) && IsFile(disk, p) && Leads(disk, At(disk, p), hops, At(disk, p)) && SomeDotted(hops)
  }

  ghost predicate Grows(disk: Disk, a: Location, b: Location) {
    exists hops :: Leads(disk, a, hops, b) && Growth(hops) > 0
  }

  lemma {:induction false} LeadsConcat(disk: Disk, a: Location, x: seq<Hop>, b: Location, y: seq<Hop>, c: Location)
    requires Leads(disk, a, x, b) && Leads(disk, b, y, c)
    ensures Leads(disk, a, x + y, c) && Growth(x + y) == Growth(x) + Growth(y)
    decreases |x|
  {
    hide IsHop, Parse;
    if x == [] {
      assert x + y == y;
    } else {
      LeadsConcat(disk, x[0].to, x[1..], b, y, c);
      assert (x + y)[1..] == x[1..] + y;
    }
  }

  lemma {:induction false} GrowthNotNegative(disk: Disk, a: Location, hops: seq<Hop>, b: Location)
    requires Leads(disk, a, hops, b)
    ensures Growth(hops) >= 0
    ensures forall i :: 0 <= i < |hops| && |Parse(hops[i].text).parts| > 1 ==> Growth(hops) > 0
    decreases |hops|
  {
    hide Parse;
    if hops != [] {
      GrowthNotNegative(disk, hops[0].to, hops[1..], b);
      assert forall i :: 0 < i < |hops| ==> hops[i] == hops[1..][i - 1];
    }
  }

  lemma {:induction false} WalkPlain(disk: Disk, at: Location, parts: seq<string>)
    requires Walk(disk, at, parts).Some? && ".." !in parts
    ensures Walk(disk, at, parts).value == at + parts
  {
    if parts != [] {
      WalkPlain(disk, at, parts[..|parts| - 1]);
      assert parts == parts[..|parts| - 1] + [parts[|parts| - 1]];
    }
  }

  lemma {:induction false} WalkDown(disk: Disk, at: Location, parts: seq<string>)
    requires ".." !in parts && forall i :: 0 <= i < |parts| ==> at + parts[..i] in disk.dirs
    ensures Walk(disk, at, parts) == Some(at + parts)
  {
    if parts == [] {
      assert at + parts == at;
    } else {
      var init := parts[..|parts| - 1];
      assert forall i :: 0 <= i < |init| ==> init[..i] == parts[..i];
      WalkDown(disk, at, init);
      assert at + init in disk.dirs && at + parts == at + init + [parts[|parts| - 1]];
      assert parts == init + [parts[|parts| - 1]];
    }
  }

  /** Without `..` a hop goes as much deeper as it adds components. */
  lemma {:induction false} PlainDepth(disk: Disk, a: Location, hops: seq<Hop>, b: Location)
    requires Leads(disk, a, hops, b) && !SomeDotted(hops)
    ensures |b| == |a| + Growth(hops)
    decreases |hops|
  {
    hide Parse, Walk;
    if hops != [] {
      var h := hops[0];
      assert forall i :: 0 < i < |hops| ==> hops[i] == hops[1..][i - 1];
      assert !Dotted(hops[0].text);
      WalkPlain(disk, h.from[..|h.from| - 1], Parse(h.text).parts);
      PlainDepth(disk, h.to, hops[1..], b);
    }
  }

  lemma DottedIsLong(t: Path)
    requires ".." in t.parts && CanNameFile(t)
    ensures |t.parts| > 1
  {
  }

  /** On a cycle some hop uses `..` exactly if the cycle makes paths longer. */
  lemma DottedIffGrowing(disk: Disk, a: Location, hops: seq<Hop>)
    requires Leads(disk, a, hops, a)
    ensures SomeDotted(hops) <==> Growth(hops) > 0
  {
    hide Parse, CanNameFile;
    GrowthNotNegative(disk, a, hops, a);
    if SomeDotted(hops) {
      var i :| 0 <= i < |hops| && Dotted(hops[i].text);
      HopAt(disk, a, hops, a, i);
      DottedIsLong(Parse(hops[i].text));
    } else {
      PlainDepth(disk, a, hops, a);
    }
  }

  lemma {:induction false} HopAt(disk: Disk, a: Location, hops: seq<Hop>, b: Location, i: nat)
    requires Leads(disk, a, hops, b) && i < |hops|
    ensures IsHop(disk, hops[i])
    decreases i
  {
    hide IsHop;
    if i > 0 {
      HopAt(disk, hops[0].to, hops[1..], b, i - 1);
    }
  }

  // ------------------------------------------------ a dotted cycle never ends

  lemma HopFollowed(disk: Disk, seeds: seq<Seed>, p: Path, h: Hop) returns (q: Path)
    requires Reachable(disk, seeds, p) && IsFile(disk, p) && At(disk, p) == h.from && IsHop(disk, h)
    ensures Reachable(disk, seeds, q) && IsFile(disk, q) && At(disk, q) == h.to
    ensures |q.parts| == |p.parts| + |Parse(h.text).parts| - 1
  {
    hide Parse, Reachable;
    q := Join(Parent(p), h.text);
    var start := if p.absolute then [] else disk.cwd;
    WalkConcat(disk, start, Parent(p).parts, Parse(h.text).parts);
    var i :| 0 <= i < |TextsAt(disk, h.from)| && TextsAt(disk, h.from)[i] == h.text;
    assert Lines(disk, p)[i].found == Some(q);
    assert Includes(disk, p, q);
    IncludedReachable(disk, seeds, p, q);
  }

  lemma {:induction false} HopsFollowed(disk: Disk, seeds: seq<Seed>, p: Path, hops: seq<Hop>, b: Location) returns (q: Path)
    requires Reachable(disk, seeds, p) && IsFile(disk, p) && Leads(disk, At(disk, p), hops, b)
    ensures Reachable(disk, seeds, q) && IsFile(disk, q) && At(disk, q) == b
    ensures |q.parts| == |p.parts| + Growth(hops)
    decreases |hops|
  {
    hide Parse, Reachable, IsHop, IsFile;
    q := p;
    if hops != [] {
      q := HopFollowed(disk, seeds, p, hops[0]);
      q := HopsFollowed(disk, seeds, q, hops[1..], b);
    }
  }

  lemma {:induction false} LongerAndLonger(disk: Disk, seeds: seq<Seed>, p: Path, hops: seq<Hop>, n: nat) returns (q: Path)
    requires Reachable(disk, seeds, p) && IsFile(disk, p) && Leads(disk, At(disk, p), hops, At(disk, p)) && Growth(hops) > 0
    ensures Reachable(disk, seeds, q) && IsFile(disk, q) && At(disk, q) == At(disk, p)
    ensures |q.parts| >= |p.parts| + n
  {
    hide Reachable, IsFile, Leads, Growth;
    q := p;
    if n > 0 {
      q := LongerAndLonger(disk, seeds, p, hops, n - 1);
      q := HopsFollowed(disk, seeds, q, hops, At(disk, p));
    }
  }

  lemma {:induction false} Longest(paths: set<Path>) returns (n: nat)
    ensures forall p :: p in paths ==> |p.parts| <= n
  {
    n := 0;
    if paths != {} {
      var p :| p in paths;
      n := Longest(paths - {p});
      if n < |p.parts| { n := |p.parts|; }
    }
  }

  ghost predicate Ends(disk: Disk, seeds: seq<Seed>) {
    exists n :: Turns(disk, Begin(seeds), n).s.queue == []
  }

  /** Once the queue is empty the tracked paths are exactly the reachable ones. */
  lemma EndTracksReachable(disk: Disk, seeds: seq<Seed>, n: nat)
    requires Turns(disk, Begin(seeds), n).s.queue == []
    ensures TracksReachable(disk, seeds, Turns(disk, Begin(seeds), n).s)
    ensures Turns(disk, Begin(seeds), n).visited == Turns(disk, Begin(seeds), n).s.pathToKey.Keys
  {
    hide Sound, VisitedAreRead, DepsKnown, TracksReachable, Turns, Begin;
    TurnsKeep(disk, seeds, n);
    var r := Turns(disk, Begin(seeds), n);
    Finished(disk, seeds, r.s, r.visited);
  }

  lemma CycleNeverEnds(disk: Disk, seeds: seq<Seed>)
    requires DottedCycle(disk, seeds)
    ensures !Ends(disk, seeds)
  {
    hide Reachable, IsFile, Turns, Begin, Leads, SomeDotted, Growth;
    var p, hops :| Reachable(disk, seeds, p) && IsFile(disk, p) && Leads(disk, At(disk, p), hops, At(disk, p)) && SomeDotted(hops);
    DottedIffGrowing(disk, At(disk, p), hops);
    forall n: nat ensures Turns(disk, Begin(seeds), n).s.queue != [] {
      var s := Turns(disk, Begin(seeds), n).s;
      if s.queue == [] {
        EndTracksReachable(disk, seeds, n);
        var longest := Longest(s.pathToKey.Keys);
        var q := LongerAndLonger(disk, seeds, p, hops, longest + 1);
      }
    }
  }

  // ------------------------------------------------ without one, paths stay short

  /** Paths that are not found relative to a file: seeds, the index, and include texts on their own. */
  ghost function Anchors(disk: Disk, seeds: seq<Seed>): set<Path> {
    (set i | 0 <= i < |seeds| :: seeds[i].path)
    + (set text | text in disk.byRel :: disk.byRel[text])
    + (set name, i | name in disk.byName && 0 <= i < |disk.byName[name]| :: disk.byName[name][i])
    + (set l, i | l in disk.lines && 0 <= i < |disk.lines[l]| :: Parse(disk.lines[l][i]))
  }

  /** An include leads to an anchor, or extends the path of the including file's directory. */
  lemma IncludeAnchorsOrHops(disk: Disk, seeds: seq<Seed>, p: Path, q: Path) returns (h: Option<Hop>)
    requires ValidDisk(disk) && Includes(disk, p, q)
    ensures IsFile(disk, p) && IsFile(disk, q) && At(disk, p) in disk.lines
    ensures h.None? ==> q in Anchors(disk, seeds)
    ensures h.Some? ==> IsHop(disk, h.value) && h.value.from == At(disk, p) && h.value.to == At(disk, q)
                        && Parse(h.value.text) in Anchors(disk, seeds) && q == Path(p.absolute, Parent(p).parts + Parse(h.value.text).parts)
  {
    hide Parse, Find;
    var i :| 0 <= i < |Lines(disk, p)| && Lines(disk, p)[i].found == Some(q);
    var l, text := At(disk, p), Lines(disk, p)[i].text;
    assert text == disk.lines[l][i];
    FindJoinsOrIndexes(disk, text, p);
    FoundIsFile(disk, text, p);
    var t := Parse(text);
    h := None;
    if q == Join(Parent(p), text) && !t.absolute {
      WalkConcat(disk, if p.absolute then [] else disk.cwd, Parent(p).parts, t.parts);
      TextIsNoDirectory(disk, p, text);
      h := Some(Hop(l, text, At(disk, q)));
    }
  }

  lemma ParentIsNoFile(disk: Disk, p: Path)
    requires ValidDisk(disk) && IsFile(disk, p)
    ensures !IsFile(disk, Parent(p))
  {
  }

  /** A text without components names the directory itself, which is no file. */
  lemma TextIsNoDirectory(disk: Disk, p: Path, text: string)
    requires ValidDisk(disk) && IsFile(disk, p) && IsFile(disk, Join(Parent(p), text)) && !Parse(text).absolute
    ensures CanNameFile(Parse(text))
  {
    hide Parse, ValidIndex;
    ParentIsNoFile(disk, p);
    assert Parent(p).parts + [] == Parent(p).parts;
  }

  // ------------------------------------------------ the charge

  ghost predicate GrowAt(disk: Disk, sources: set<Location>, q: Path) {
    forall l :: l in sources ==> IsFile(disk, q) && Grows(disk, l, At(disk, q))
  }

  lemma GrowsByHop(disk: Disk, a: Location, h: Hop)
    requires IsHop(disk, h) && Grows(disk, a, h.from)
    ensures Grows(disk, a, h.to)
  {
    hide IsHop, Parse;
    var hops :| Leads(disk, a, hops, h.from) && Growth(hops) > 0;
    OneHop(disk, h);
    LeadsConcat(disk, a, hops, h.from, [h], h.to);
    GrowthNotNegative(disk, h.from, [h], h.to);
  }

  lemma OneHop(disk: Disk, h: Hop)
    requires IsHop(disk, h)
    ensures Leads(disk, h.from, [h], h.to) && Growth([h]) == |Parse(h.text).parts| - 1
  {
    hide IsHop, Parse;
    assert [h][1..] == [];
  }

  lemma GrowingHop(disk: Disk, h: Hop)
    requires IsHop(disk, h) && |Parse(h.text).parts| > 1
    ensures Grows(disk, h.from, h.to)
  {
    hide IsHop, Parse;
    OneHop(disk, h);
  }

  lemma NoGrowingCycle(disk: Disk, seeds: seq<Seed>, p: Path)
    requires !DottedCycle(disk, seeds) && Reachable(disk, seeds, p) && IsFile(disk, p)
    ensures !Grows(disk, At(disk, p), At(disk, p))
  {
    hide Reachable, IsFile, Leads, Growth, SomeDotted;
    forall hops | Leads(disk, At(disk, p), hops, At(disk, p)) ensures Growth(hops) <= 0 {
      DottedIffGrowing(disk, At(disk, p), hops);
    }
  }

  /** The sources of the growth of `q`, given those of `p` that includes it through the hop `h`. */
  lemma ChargeHop(disk: Disk, seeds: seq<Seed>, p: Path, h: Hop, q: Path, sources: set<Location>) returns (charged: set<Location>)
    requires !DottedCycle(disk, seeds) && Reachable(disk, seeds, p) && IsFile(disk, p) && IsFile(disk, q)
    requires IsHop(disk, h) && h.from == At(disk, p) && h.to == At(disk, q) && h.from in disk.lines
    requires sources <= disk.lines.Keys && GrowAt(disk, sources, p)
    ensures charged <= disk.lines.Keys && GrowAt(disk, charged, q)
    ensures charged == sources || (|charged| == |sources| + 1 && |Parse(h.text).parts| > 1)
    ensures |Parse(h.text).parts| > 1 ==> |charged| == |sources| + 1
  {
    hide Reachable, IsFile, Parse, Grows, IsHop, DottedCycle;
    charged := sources;
    forall l | l in sources ensures Grows(disk, l, h.to) {
      GrowsByHop(disk, l, h);
    }
    if |Parse(h.text).parts| > 1 {
      NoGrowingCycle(disk, seeds, p);
      GrowingHop(disk, h);
      charged := sources + {h.from};
    }
  }

  ghost predicate Bounded(paths: set<Path>, longest: nat) {
    forall p :: p in paths ==> |p.parts| <= longest
  }

  /** Every component that was ever added to a path made it longer by at most `longest`, and is charged to a file of
      its own: a file that charges twice would be on a growing cycle. */
  lemma {:induction false} Charge(disk: Disk, seeds: seq<Seed>, longest: nat, r: seq<Path>, q: Path) returns (sources: set<Location>)
    requires ValidDisk(disk) && !DottedCycle(disk, seeds) && Bounded(Anchors(disk, seeds), longest)
    requires IsRoute(disk, seeds, r, q)
    ensures sources <= disk.lines.Keys && GrowAt(disk, sources, q)
    ensures |q.parts| <= longest + longest * |sources|
    decreases |r|
  {
    hide DottedCycle, IsFile, Parse, Includes, ValidDisk, Grows, IsHop, Anchors, IsSeed;
    sources := {};
    if |r| == 1 {
      SeedIsAnchor(disk, seeds, q);
    } else {
      var p := r[|r| - 2];
      var init := r[..|r| - 1];
      assert IsRoute(disk, seeds, init, p);
      assert Includes(disk, p, r[|r| - 1]);
      var h := IncludeAnchorsOrHops(disk, seeds, p, q);
      if h.Some? {
        sources := Charge(disk, seeds, longest, init, p);
        assert Reachable(disk, seeds, p);
        var charged := ChargeHop(disk, seeds, p, h.value, q, sources);
        ChargeArith(longest, |sources|, |charged|, |p.parts|, |Parse(h.value.text).parts|);
        sources := charged;
      }
    }
  }

  lemma SeedIsAnchor(disk: Disk, seeds: seq<Seed>, p: Path)
    requires IsSeed(seeds, p)
    ensures p in Anchors(disk, seeds)
  {
  }

  lemma ChargeArith(longest: nat, before: nat, after: nat, len: nat, added: nat)
    requires len <= longest + longest * before && added <= longest
    requires after == before || after == before + 1
    requires added > 1 ==> after == before + 1
    ensures len - 1 + added <= longest + longest * after
  {
  }

  // ------------------------------------------------ finitely many paths

  ghost function Alphabet(disk: Disk, seeds: seq<Seed>): set<string> {
    set p, i | p in Anchors(disk, seeds) && 0 <= i < |p.parts| :: p.parts[i]
  }

  ghost predicate Over(letters: set<string>, parts: seq<string>) {
    forall i :: 0 <= i < |parts| ==> parts[i] in letters
  }

  ghost function Words(letters: set<string>, n: nat): set<seq<string>> {
    if n == 0 then {[]} else {[]} + (set w, x | w in Words(letters, n - 1) && x in letters :: w + [x])
  }

  lemma {:induction false} InWords(letters: set<string>, n: nat, parts: seq<string>)
    requires |parts| <= n && Over(letters, parts)
    ensures parts in Words(letters, n)
  {
    if parts != [] {
      var init, last := parts[..|parts| - 1], parts[|parts| - 1];
      InWords(letters, n - 1, init);
      assert parts == init + [last];
    }
  }

  lemma AnchorSpelled(disk: Disk, seeds: seq<Seed>, p: Path)
    requires p in Anchors(disk, seeds)
    ensures Over(Alphabet(disk, seeds), p.parts)
  {
    hide Anchors;
  }

  /** Reachable paths are made of the components of the anchors. */
  lemma {:induction false} Spelled(disk: Disk, seeds: seq<Seed>, r: seq<Path>, q: Path)
    requires ValidDisk(disk) && IsRoute(disk, seeds, r, q)
    ensures Over(Alphabet(disk, seeds), q.parts)
    decreases |r|
  {
    hide IsFile, Parse, Includes, ValidDisk, IsHop, Anchors, Alphabet, IsSeed;
    if |r| == 1 {
      SeedIsAnchor(disk, seeds, q);
      AnchorSpelled(disk, seeds, q);
    } else {
      var p := r[|r| - 2];
      assert IsRoute(disk, seeds, r[..|r| - 1], p);
      assert Includes(disk, p, r[|r| - 1]);
      var h := IncludeAnchorsOrHops(disk, seeds, p, q);
      if h.Some? {
        Spelled(disk, seeds, r[..|r| - 1], p);
        AnchorSpelled(disk, seeds, Parse(h.value.text));
      } else {
        AnchorSpelled(disk, seeds, q);
      }
    }
  }

  ghost function Universe(disk: Disk, seeds: seq<Seed>, longest: nat): set<Path> {
    set absolute, parts | absolute in {false, true} && parts in Words(Alphabet(disk, seeds), longest + longest * |disk.lines.Keys|) ::
      Path(absolute, parts)
  }

  lemma ProductGrows(a: nat, b: nat, c: nat)
    requires b <= c
    ensures a * b <= a * c
  {
  }

  lemma ReachableInUniverse(disk: Disk, seeds: seq<Seed>, longest: nat, p: Path)
    requires ValidDisk(disk) && !DottedCycle(disk, seeds) && Bounded(Anchors(disk, seeds), longest)
    requires Reachable(disk, seeds, p)
    ensures p in Universe(disk, seeds, longest)
  {
    hide ValidDisk, DottedCycle, Bounded, Anchors, Alphabet, IsRoute, GrowAt, Words, Over;
    var r :| IsRoute(disk, seeds, r, p);
    var sources := Charge(disk, seeds, longest, r, p);
    SubsetCount(sources, disk.lines.Keys);
    ProductGrows(longest, |sources|, |disk.lines.Keys|);
    Spelled(disk, seeds, r, p);
    InWords(Alphabet(disk, seeds), longest + longest * |disk.lines.Keys|, p.parts);
  }

  ghost predicate HoldsReachable(disk: Disk, seeds: seq<Seed>, universe: set<Path>) {
    forall p :: Reachable(disk, seeds, p) ==> p in universe
  }

  lemma FiniteUniverse(disk: Disk, seeds: seq<Seed>) returns (universe: set<Path>)
    requires ValidDisk(disk) && !DottedCycle(disk, seeds)
    ensures HoldsReachable(disk, seeds, universe)
  {
    hide ValidDisk, DottedCycle, Anchors, Reachable, Universe;
    var longest := Longest(Anchors(disk, seeds));
    universe := Universe(disk, seeds, longest);
    forall p | Reachable(disk, seeds, p) ensures p in universe {
      ReachableInUniverse(disk, seeds, longest, p);
    }
  }

  // ------------------------------------------------ the walk ends

  /** A turn visits a path of the universe, or drops one that was visited. */
  lemma TurnProgresses(disk: Disk, seeds: seq<Seed>, universe: set<Path>, n: nat)
    requires HoldsReachable(disk, seeds, universe) && Turns(disk, Begin(seeds), n).s.queue != []
    ensures var r, r' := Turns(disk, Begin(seeds), n), Turns(disk, Begin(seeds), n + 1);
      var p := r.s.queue[0].path;
      && r'.visited == r.visited + {p} && p in universe
      && (p in r.visited ==> |r'.s.queue| < |r.s.queue|)
  {
    hide Reachable, Begin, IsFile, ReadAll, Lines, DepKeys, VisitedAreRead, DepsKnown, VisitedOrWaiting;
    TurnsKeep(disk, seeds, n);
  }

  lemma {:induction false} EndsFrom(disk: Disk, seeds: seq<Seed>, universe: set<Path>, n: nat) returns (m: nat)
    requires HoldsReachable(disk, seeds, universe)
    ensures Turns(disk, Begin(seeds), m).s.queue == []
    decreases universe - Turns(disk, Begin(seeds), n).visited, |Turns(disk, Begin(seeds), n).s.queue|
  {
    hide HoldsReachable, Turns, Begin;
    m := n;
    if Turns(disk, Begin(seeds), n).s.queue != [] {
      TurnProgresses(disk, seeds, universe, n);
      m := EndsFrom(disk, seeds, universe, n + 1);
    }
  }

  /** The walk ends exactly if no reachable file includes itself through files found relative to each other, one of
      them with `..`. */
  lemma WalkEndsIff(disk: Disk, seeds: seq<Seed>)
    requires ValidDisk(disk)
    ensures Ends(disk, seeds) <==> !DottedCycle(disk, seeds)
  {
    hide ValidDisk, DottedCycle, HoldsReachable, Turns, Begin;
    if DottedCycle(disk, seeds) {
      CycleNeverEnds(disk, seeds);
    } else {
      var universe := FiniteUniverse(disk, seeds);
      var n := EndsFrom(disk, seeds, universe, 0);
    }
  }

  /** The tracked paths are exactly those reachable from the seeds; keys lead to them, and recorded dependencies are
      keys. If the seeds that are files are absolute, each key leads back to its path, and every readable path has an
      entry that lists the keys of exactly the paths its lines find. */
  method Resolve(disk: Disk, seeds: seq<Seed>)
    returns (combined: map<string, Path>, deps: Deps, ghost pathToKey: map<Path, string>)
    requires ValidDisk(disk) && !DottedCycle(disk, seeds)
    ensures forall k :: k in combined ==> Reachable(disk, seeds, combined[k])
    ensures forall k :: k in deps ==> k in combined && forall d :: d in deps[k] ==> d in combined
    ensures DistinctNames(seeds) && RelativeNames(seeds) && AbsoluteSeeds(disk, seeds) && NormalSeeds(seeds) ==>
      forall p :: Reachable(disk, seeds, p) ==> p in combined.Values
    ensures TracksReachable(disk, seeds, Tables(combined, pathToKey, []))
    ensures DistinctNames(seeds) && RelativeNames(seeds) && AbsoluteSeeds(disk, seeds) && NormalSeeds(seeds) ==>
      && KeysFaithful(Tables(combined, pathToKey, []))
      && VisitedRecorded(disk, Tables(combined, pathToKey, []), deps, pathToKey.Keys)
  {
    hide ValidDisk, DottedCycle, HoldsReachable, Turns, Lines, Grown, KeysKnown, IsFile, ReadAll, DepKeys, Seeded,
         Reachable, Sound, VisitedAreRead, DepsKnown, TracksReachable, KeysFaithful, VisitedRecorded,
         DistinctNames, RelativeNames, AbsoluteSeeds, NormalSeeds, ValidIndex, HonestSoFar, AbsoluteTracked;
    ghost var universe := FiniteUniverse(disk, seeds);
    var s := SeedTables(seeds);
    deps := map[];
    var visited: set<Path> := {};
    ghost var n: nat := 0;
    TurnsAtStart(disk, seeds);
    while s.queue != []
      invariant Run(s, visited, deps) == Turns(disk, Begin(seeds), n)
      decreases universe - visited, |s.queue|
    {
      TurnProgresses(disk, seeds, universe, n);
      NextTurn(disk, seeds, n);
      var current := s.queue[0];
      s := Popped(s);
      if current.path !in visited {
        visited := visited + {current.path};
        if IsFile(disk, current.path) {
          PoppedIsKnown(disk, seeds, n);
          var names, grown := ReadLines(disk, current.path, s);
          s, deps := grown, deps[current.name := names];
        }
      }
      n := n + 1;
    }
    EndTracksReachable(disk, seeds, n);
    TurnsKeep(disk, seeds, n);
    if DistinctNames(seeds) && RelativeNames(seeds) && AbsoluteSeeds(disk, seeds) && NormalSeeds(seeds) {
      IndexIsValid(disk);
      TurnsKeepFaith(disk, seeds, n);
    }
    combined, pathToKey := s.combined, s.pathToKey;
    assert s == Tables(combined, pathToKey, []);
    ReadOff(disk, seeds, s, deps);
  }

  lemma ReadOff(disk: Disk, seeds: seq<Seed>, s: Tables, deps: Deps)
    requires TracksReachable(disk, seeds, s) && DepsKnown(s, deps)
    ensures forall k :: k in s.combined ==> Reachable(disk, seeds, s.combined[k])
    ensures forall k :: k in deps ==> k in s.combined && forall d :: d in deps[k] ==> d in s.combined
    ensures KeysFaithful(s) ==> forall p :: Reachable(disk, seeds, p) ==> p in s.combined.Values
  {
    hide Reachable;
    if KeysFaithful(s) {
      forall p | Reachable(disk, seeds, p) ensures p in s.combined.Values {
        assert s.combined[s.pathToKey[p]] == p;
      }
    }
  }

  lemma TurnsAtStart(disk: Disk, seeds: seq<Seed>)
    ensures Turns(disk, Begin(seeds), 0) == Run(Seeded(seeds), {}, map[])
  {
  }

  lemma NextTurn(disk: Disk, seeds: seq<Seed>, n: nat)
    ensures Turns(disk, Begin(seeds), n + 1) == Turn(disk, Turns(disk, Begin(seeds), n))
  {
    hide Turn, Begin;
  }

  lemma PoppedIsKnown(disk: Disk, seeds: seq<Seed>, n: nat)
    requires Turns(disk, Begin(seeds), n).s.queue != []
    ensures KeysKnown(Popped(Turns(disk, Begin(seeds), n).s))
  {
    hide KeysKnown, Popped, OnlyReachable, VisitedOrWaiting, Turns, Begin, VisitedAreRead, DepsKnown;
    TurnsKeep(disk, seeds, n);
    PopKeepsKeys(Turns(disk, Begin(seeds), n).s);
  }

  lemma IndexIsValid(disk: Disk)
    requires ValidDisk(disk)
    ensures ValidIndex(disk)
  {
  }

  // ------------------------------------------------ two headers that include each other

  const A: Location := ["p", "src", "a.h"]
  const B: Location := ["p", "inc", "b.h"]
  const TO_A := "../src/a.h"
  const TO_B := "../inc/b.h"

  /** Each of the two files includes the other one by way of `..`. */
  const TWO_FILES: Disk :=
    Disk(["p"], {[], ["p"], ["p", "src"], ["p", "inc"]}, {A, B}, map[A := [TO_B], B := [TO_A]], map[], map[])

  const ONE_SEED: seq<Seed> := [Seed("a.h", Path(true, A))]

  lemma AroundParses(dir: string, name: string)
    requires Component(dir) && Component(name)
    ensures Parse("../" + dir + "/" + name) == Path(false, ["..", dir, name])
  {
    hide Parse;
    var p := Path(false, ["..", dir, name]);
    assert p.parts[1..] == [dir, name] && [dir, name][1..] == [name];
    assert Joined([name]) == name && Joined([dir, name]) == dir + "/" + name;
    assert Str(p) == ".." + "/" + (dir + "/" + name) && "../" == ".." + "/";
    assert "../" + dir + "/" + name == Str(p);
    ParseStr(p);
  }

  lemma TextsParse()
    ensures Parse(TO_A) == Path(false, ["..", "src", "a.h"])
    ensures Parse(TO_B) == Path(false, ["..", "inc", "b.h"])
  {
    hide Parse;
    AroundParses("src", "a.h");
    AroundParses("inc", "b.h");
    assert TO_A == "../" + "src" + "/" + "a.h" && TO_B == "../" + "inc" + "/" + "b.h";
  }

  lemma WalkAround(disk: Disk, at: Location, dir: string, name: string)
    requires at != [] && at in disk.dirs && at[..|at| - 1] in disk.dirs && at[..|at| - 1] + [dir] in disk.dirs
    requires dir != ".." && name != ".."
    ensures Walk(disk, at, ["..", dir, name]) == Some(at[..|at| - 1] + [dir] + [name])
  {
    var parts := ["..", dir, name];
    assert parts[..2][..1] == [".."] && parts[..2][..1][..0] == [];
    assert Walk(disk, at, parts[..2][..1]) == Some(at[..|at| - 1]);
  }

  lemma FirstIsFound()
    ensures IsFile(TWO_FILES, Path(true, A)) && At(TWO_FILES, Path(true, A)) == A
  {
    assert [] + A[..0] == [] && [] + A[..1] == ["p"] && [] + A[..2] == ["p", "src"] && [] + A == A;
    WalkDown(TWO_FILES, [], A);
  }

  lemma HopToB()
    ensures IsHop(TWO_FILES, Hop(A, TO_B, B))
  {
    hide Parse;
    TextsParse();
    assert A[..2] == ["p", "src"] && A[..2][..1] == ["p"] && A[..2][..1] + ["inc"] == ["p", "inc"];
    WalkAround(TWO_FILES, A[..2], "inc", "b.h");
    assert ["p"] + ["inc"] + ["b.h"] == B && A[1] != B[1];
  }

  lemma HopToA()
    ensures IsHop(TWO_FILES, Hop(B, TO_A, A))
  {
    hide Parse;
    TextsParse();
    assert B[..2] == ["p", "inc"] && B[..2][..1] == ["p"] && B[..2][..1] + ["src"] == ["p", "src"];
    WalkAround(TWO_FILES, B[..2], "src", "a.h");
    assert ["p"] + ["src"] + ["a.h"] == A;
  }

  lemma TwoFilesCycle(hops: seq<Hop>)
    requires hops == [Hop(A, TO_B, B), Hop(B, TO_A, A)]
    ensures Leads(TWO_FILES, A, hops, A) && SomeDotted(hops) && Growth(hops) == 4
  {
    hide Parse, IsHop;
    TextsParse();
    HopToB();
    HopToA();
    assert hops[1..] == [Hop(B, TO_A, A)] && hops[1..][1..] == [];
    assert Dotted(hops[0].text) by { assert Parse(TO_B).parts[0] == ".."; }
    assert Leads(TWO_FILES, A, [], A) && Growth([]) == 0;
    assert Leads(TWO_FILES, B, hops[1..], A) && Growth(hops[1..]) == 2;
  }

  /** The walk over the two files never ends, and tracks two paths of one file. */
  lemma TwoFilesNeverEnd()
    ensures ValidDisk(TWO_FILES) && AbsoluteSeeds(TWO_FILES, ONE_SEED)
    ensures DottedCycle(TWO_FILES, ONE_SEED) && !Ends(TWO_FILES, ONE_SEED)
    ensures exists p, q :: Reachable(TWO_FILES, ONE_SEED, p) && Reachable(TWO_FILES, ONE_SEED, q) && p != q
                        && IsFile(TWO_FILES, p) && IsFile(TWO_FILES, q) && At(TWO_FILES, p) == At(TWO_FILES, q)
  {
    hide Parse, IsFile, Leads, SomeDotted, Growth, Reachable;
    var p := Path(true, A);
    var hops := [Hop(A, TO_B, B), Hop(B, TO_A, A)];
    assert ONE_SEED[0].path == p;
    SeedReachable(TWO_FILES, ONE_SEED, p);
    FirstIsFound();
    TwoFilesCycle(hops);
    CycleNeverEnds(TWO_FILES, ONE_SEED);
    var q := HopsFollowed(TWO_FILES, ONE_SEED, p, hops, A);
    assert |q.parts| == |p.parts| + 4;
  }
}
