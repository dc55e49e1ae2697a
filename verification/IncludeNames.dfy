/** Which file `find` answers with, in terms of the include roots and their files. */
module IncludeNames {
  import opened Wrappers
  import opened Splitting
  import opened IncludePaths
  import opened IncludeIndex

  type Listings = seq<seq<seq<string>>>

  // ------------------------------------------------ the name of a text

  predicate Dropped(part: string) {
    part == "" || part == "."
  }

  /** `name` is the last of the parts between slashes that is neither empty nor `.`. */
  ghost predicate Names(text: string, name: string) {
    var parts := Split(text, '/');
    exists m :: 0 <= m < |parts| && parts[m] == name && !Dropped(name) && forall n :: m < n < |parts| ==> Dropped(parts[n])
  }

  lemma {:induction false} LastKept(parts: seq<string>, m: nat)
    requires m < |parts| && !Dropped(parts[m]) && forall n :: m < n < |parts| ==> Dropped(parts[n])
    ensures Kept(parts) != [] && Kept(parts)[|Kept(parts)| - 1] == parts[m]
  {
    if m > 0 {
      LastKept(parts[1..], m - 1);
    } else {
      NothingKept(parts[1..]);
    }
  }

  lemma {:induction false} NothingKept(parts: seq<string>)
    ensures Kept(parts) == [] <==> forall n :: 0 <= n < |parts| ==> Dropped(parts[n])
  {
    if parts != [] {
      NothingKept(parts[1..]);
      assert forall n :: 1 <= n < |parts| ==> parts[n] == parts[1..][n - 1];
    }
  }

  lemma NameIs(text: string, name: string)
    requires Names(text, name)
    ensures BaseName(text) == name
  {
    var parts := Split(text, '/');
    var m :| 0 <= m < |parts| && parts[m] == name && !Dropped(name) && forall n :: m < n < |parts| ==> Dropped(parts[n]);
    LastKept(parts, m);
  }

  lemma {:induction false} LastPart(parts: seq<string>) returns (m: int)
    ensures m < 0 ==> forall n :: 0 <= n < |parts| ==> Dropped(parts[n])
    ensures m >= 0 ==> m < |parts| && !Dropped(parts[m]) && forall n :: m < n < |parts| ==> Dropped(parts[n])
  {
    hide Dropped;
    m := |parts| - 1;
    if parts != [] && Dropped(parts[m]) {
      var init := parts[..m];
      m := LastPart(init);
      assert forall n :: 0 <= n < |init| ==> parts[n] == init[n];
    }
  }

  lemma NamesOrNone(text: string) returns (name: string)
    ensures Names(text, name) || BaseName(text) == ""
  {
    var parts := Split(text, '/');
    NothingKept(parts);
    var m := LastPart(parts);
    name := if m >= 0 then parts[m] else "";
  }

  // ------------------------------------------------ files in the order in which they are listed

  /** File `i` of root `k` has the name. */
  ghost predicate NamedAt(listings: Listings, name: string, k: int, i: int) {
    0 <= k < |listings| && 0 <= i < |listings[k]| && listings[k][i] != [] && listings[k][i][|listings[k][i]| - 1] == name
  }

  function FileAt(roots: seq<Location>, listings: Listings, k: int, i: int): Path
    requires |listings| == |roots| && 0 <= k < |listings| && 0 <= i < |listings[k]|
  {
    Path(true, roots[k] + listings[k][i])
  }

  predicate Earlier(k: int, i: int, k': int, i': int) {
    k < k' || (k == k' && i < i')
  }

  ghost predicate Ends(s: string, text: string) {
    exists front :: s == front + text
  }

  lemma EndsIff(s: string, text: string)
    ensures EndsWith(s, text) <==> Ends(s, text)
  {
    if EndsWith(s, text) {
      assert s == s[..|s| - |text|] + text;
    }
  }

  /** The file has the name, and its path string ends with the text. */
  ghost predicate EndingAt(roots: seq<Location>, listings: Listings, name: string, text: string, k: int, i: int)
    requires |listings| == |roots|
  {
    NamedAt(listings, name, k, i) && Ends(Str(FileAt(roots, listings, k, i)), text)
  }

  ghost predicate FirstEndingAt(roots: seq<Location>, listings: Listings, name: string, text: string, k: int, i: int)
    requires |listings| == |roots|
  {
    && EndingAt(roots, listings, name, text, k, i)
    && forall k', i' :: EndingAt(roots, listings, name, text, k', i') ==> !Earlier(k', i', k, i)
  }

  ghost predicate FirstNamedAt(listings: Listings, name: string, k: int, i: int) {
    NamedAt(listings, name, k, i) && forall k', i' :: NamedAt(listings, name, k', i') ==> !Earlier(k', i', k, i)
  }

  /** The earliest file of the name that ends with the text; if none does, the earliest of the name. */
  ghost predicate AnswerAt(roots: seq<Location>, listings: Listings, name: string, text: string, k: int, i: int)
    requires |listings| == |roots|
  {
    || FirstEndingAt(roots, listings, name, text, k, i)
    || (FirstNamedAt(listings, name, k, i) && forall k', i' :: !EndingAt(roots, listings, name, text, k', i'))
  }

  // ------------------------------------------------ the list that the index keeps under a name

  type Spot = (int, int)

  function SpotsIn(rels: seq<seq<string>>, name: string, k: int): seq<Spot> {
    if rels == [] then []
    else
      var n := |rels| - 1;
      SpotsIn(rels[..n], name, k) + if rels[n] != [] && rels[n][|rels[n]| - 1] == name then [(k, n)] else []
  }

  function Spots(listings: Listings, name: string): seq<Spot> {
    if listings == [] then []
    else
      var n := |listings| - 1;
      Spots(listings[..n], name) + SpotsIn(listings[n], name, n)
  }

  ghost predicate Ordered(spots: seq<Spot>) {
    forall a, b :: 0 <= a < b < |spots| ==> Earlier(spots[a].0, spots[a].1, spots[b].0, spots[b].1)
  }

  lemma {:induction false} SpotsInAre(rels: seq<seq<string>>, name: string, k: int)
    ensures forall q, i :: (q, i) in SpotsIn(rels, name, k) <==>
      q == k && 0 <= i < |rels| && rels[i] != [] && rels[i][|rels[i]| - 1] == name
    ensures Ordered(SpotsIn(rels, name, k))
  {
    if rels != [] {
      var n := |rels| - 1;
      SpotsInAre(rels[..n], name, k);
      var spots := SpotsIn(rels[..n], name, k);
      forall a | 0 <= a < |spots| ensures spots[a].0 == k && spots[a].1 < n {
        assert (spots[a].0, spots[a].1) in spots;
      }
    }
  }

  lemma {:induction false} SpotsAre(listings: Listings, name: string)
    ensures forall k, i :: (k, i) in Spots(listings, name) <==> NamedAt(listings, name, k, i)
    ensures Ordered(Spots(listings, name))
  {
    if listings != [] {
      var n := |listings| - 1;
      SpotsAre(listings[..n], name);
      SpotsInAre(listings[n], name, n);
      var before, here := Spots(listings[..n], name), SpotsIn(listings[n], name, n);
      forall a | 0 <= a < |before| ensures before[a].0 < n {
        assert (before[a].0, before[a].1) in before;
      }
      forall b | 0 <= b < |here| ensures here[b].0 == n {
        assert (here[b].0, here[b].1) in here;
      }
      forall k, i ensures (k, i) in Spots(listings, name) <==> NamedAt(listings, name, k, i) {
        assert NamedAt(listings, name, k, i) <==> (if k == n then (k, i) in here else NamedAt(listings[..n], name, k, i));
      }
    }
  }

  function Under(t: Entries, name: string): seq<Path> {
    if name in t.byName then t.byName[name] else []
  }

  /** `paths[a]` is the file at `spots[a]`. */
  ghost predicate FilesOf(roots: seq<Location>, listings: Listings, spots: seq<Spot>, paths: seq<Path>)
    requires |listings| == |roots|
  {
    |paths| == |spots| && forall a :: 0 <= a < |spots| ==>
      && 0 <= spots[a].0 < |listings| && 0 <= spots[a].1 < |listings[spots[a].0]|
      && paths[a] == FileAt(roots, listings, spots[a].0, spots[a].1)
  }

  lemma EnterUnder(t: Entries, root: Location, rel: seq<string>, name: string)
    ensures Under(Enter(t, root, rel), name) ==
      Under(t, name) + if rel != [] && rel[|rel| - 1] == name then [Path(true, root + rel)] else []
  {
  }

  lemma {:induction false} EnterAllUnder(t: Entries, root: Location, rels: seq<seq<string>>, name: string, k: int)
    ensures var more, spots := Under(EnterAll(t, root, rels), name), SpotsIn(rels, name, k);
      && |more| == |Under(t, name)| + |spots| && more[..|Under(t, name)|] == Under(t, name)
      && (forall a :: 0 <= a < |spots| ==> 0 <= spots[a].1 < |rels| && spots[a].0 == k)
      && (forall a :: 0 <= a < |spots| ==> more[|Under(t, name)| + a] == Path(true, root + rels[spots[a].1]))
  {
    hide Under, Enter;
    if rels != [] {
      var n := |rels| - 1;
      EnterAllUnder(t, root, rels[..n], name, k);
      EnterUnder(EnterAll(t, root, rels[..n]), root, rels[n], name);
    }
  }

  lemma {:induction false} IndexUnder(roots: seq<Location>, listings: Listings, name: string)
    requires |listings| == |roots|
    ensures FilesOf(roots, listings, Spots(listings, name), Under(IndexOf(roots, listings), name))
  {
    hide Under, EnterAll, SpotsIn;
    if roots == [] {
      NothingUnder(name);
    } else {
      var n := |roots| - 1;
      IndexUnder(roots[..n], listings[..n], name);
      EnterAllUnder(IndexOf(roots[..n], listings[..n]), roots[n], listings[n], name, n);
      UnderSnoc(roots, listings, Spots(listings[..n], name), Under(IndexOf(roots[..n], listings[..n]), name),
                SpotsIn(listings[n], name, n), Under(IndexOf(roots, listings), name));
    }
  }

  lemma NothingUnder(name: string)
    ensures Under(Entries(map[], map[]), name) == []
  {
  }

  lemma UnderSnoc(roots: seq<Location>, listings: Listings, spots: seq<Spot>, paths: seq<Path>, here: seq<Spot>, all: seq<Path>)
    requires |listings| == |roots| > 0
    requires FilesOf(roots[..|roots| - 1], listings[..|roots| - 1], spots, paths)
    requires |all| == |paths| + |here| && all[..|paths|] == paths
    requires forall a :: 0 <= a < |here| ==> here[a].0 == |roots| - 1 && 0 <= here[a].1 < |listings[|roots| - 1]|
    requires forall a :: 0 <= a < |here| ==>
      all[|paths| + a] == Path(true, roots[|roots| - 1] + listings[|roots| - 1][here[a].1])
    ensures FilesOf(roots, listings, spots + here, all)
  {
    forall a | 0 <= a < |paths| ensures all[a] == paths[a] {
      assert all[..|paths|][a] == all[a];
    }
  }

  // ------------------------------------------------ rules 1 and 2

  /** A text that spells a path is joined to the directory of the file, or stands for itself if it is absolute. */
  lemma JoinsSpelled(dir: Path, q: Path)
    requires Normal(q)
    ensures Join(dir, Str(q)) == if q.absolute then q else Path(dir.absolute, dir.parts + q.parts)
  {
    ParseStr(q);
  }

  /** Rule 1 comes first: the file next to the including one. */
  lemma RuleOne(disk: Disk, dir: Path, name: string, q: Path)
    requires Normal(q) && IsFile(disk, if q.absolute then q else Path(dir.absolute, dir.parts + q.parts))
    ensures Find(disk, Str(q), Path(dir.absolute, dir.parts + [name])) ==
      Some(if q.absolute then q else Path(dir.absolute, dir.parts + q.parts))
  {
    hide IsFile;
    assert (dir.parts + [name])[..|dir.parts|] == dir.parts;
    JoinsSpelled(dir, q);
  }

  /** Then rule 2: the text is the relative path of a source file below some root, the first such root. */
  lemma RuleTwo(disk: Disk, roots: seq<Location>, listings: Listings, rel: seq<string>, k: int, from: Path)
    requires BuiltFrom(disk, roots, listings) && rel != [] && Canonical(rel) && FirstRoot(disk, roots, rel, k)
    requires !IsFile(disk, Join(Parent(from), Joined(rel)))
    ensures Find(disk, Joined(rel), from) == Some(Path(true, roots[k] + rel))
  {
    hide IsFile, Join, IndexOf, Listing, Canonical, Joined, Below;
    FirstRootWins(disk, roots, listings, rel);
  }

  // ------------------------------------------------ rule 3

  /** The position of the first path that ends with the text. */
  lemma {:induction false} FirstEndingIs(paths: seq<Path>, text: string) returns (a: nat)
    ensures FirstEnding(paths, text).None? ==> forall b :: 0 <= b < |paths| ==> !Ends(Str(paths[b]), text)
    ensures FirstEnding(paths, text).Some? ==> a < |paths| && FirstEnding(paths, text) == Some(paths[a])
    ensures FirstEnding(paths, text).Some? ==>
      Ends(Str(paths[a]), text) && forall b :: 0 <= b < a ==> !Ends(Str(paths[b]), text)
  {
    hide EndsWith, Ends, Str;
    a := 0;
    if paths != [] { EndsIff(Str(paths[0]), text); }
    if paths != [] && !EndsWith(Str(paths[0]), text) {
      a := FirstEndingIs(paths[1..], text);
      a := a + 1;
      assert forall b :: 1 <= b < |paths| ==> paths[b] == paths[1..][b - 1];
    }
  }

  /** Which position `ByName` answers with: the first that ends with the text, else the first. */
  lemma AnswerPosition(disk: Disk, text: string) returns (a: nat)
    requires Hits(disk, text) != []
    ensures a < |Hits(disk, text)| && ByName(disk, text) == Some(Hits(disk, text)[a])
    ensures var hits := Hits(disk, text);
      || (Ends(Str(hits[a]), text) && forall b :: 0 <= b < a ==> !Ends(Str(hits[b]), text))
      || (a == 0 && forall b :: 0 <= b < |hits| ==> !Ends(Str(hits[b]), text))
  {
    hide Ends, Str, Hits;
    var hits := Hits(disk, text);
    a := FirstEndingIs(hits, text);
    if |hits| == 1 || FirstEnding(hits, text).None? {
      a := 0;
    }
  }

  lemma SpotOf(listings: Listings, name: string, k: int, i: int) returns (b: nat)
    requires NamedAt(listings, name, k, i)
    ensures b < |Spots(listings, name)| && Spots(listings, name)[b] == (k, i)
  {
    SpotsAre(listings, name);
    b :| b < |Spots(listings, name)| && Spots(listings, name)[b] == (k, i);
  }

  /** The position that answers is that of the answer. */
  lemma PositionAnswers(roots: seq<Location>, listings: Listings, name: string, text: string, paths: seq<Path>, a: nat)
    requires |listings| == |roots| && FilesOf(roots, listings, Spots(listings, name), paths) && a < |paths|
    requires || (Ends(Str(paths[a]), text) && forall b :: 0 <= b < a ==> !Ends(Str(paths[b]), text))
             || (a == 0 && forall b :: 0 <= b < |paths| ==> !Ends(Str(paths[b]), text))
    ensures var spot := Spots(listings, name)[a]; AnswerAt(roots, listings, name, text, spot.0, spot.1)
  {
    hide Ends, Str, Spots, NamedAt;
    var spots := Spots(listings, name);
    SpotsAre(listings, name);
    assert (spots[a].0, spots[a].1) in spots;
    forall k, i | NamedAt(listings, name, k, i) && Earlier(k, i, spots[a].0, spots[a].1)
      ensures a > 0 && !EndingAt(roots, listings, name, text, k, i)
    {
      var b := SpotOf(listings, name, k, i);
    }
    forall k, i | EndingAt(roots, listings, name, text, k, i) ensures exists b :: 0 <= b < |paths| && Ends(Str(paths[b]), text) {
      var b := SpotOf(listings, name, k, i);
      assert Ends(Str(paths[b]), text);
    }
  }

  lemma AnswerUnique(roots: seq<Location>, listings: Listings, name: string, text: string, k: int, i: int, k': int, i': int)
    requires |listings| == |roots|
    requires AnswerAt(roots, listings, name, text, k, i) && AnswerAt(roots, listings, name, text, k', i')
    ensures k == k' && i == i'
  {
    hide Ends, Str, NamedAt;
    assert EndingAt(roots, listings, name, text, k, i) ==> NamedAt(listings, name, k, i);
  }

  lemma AnswersAreNamed(roots: seq<Location>, listings: Listings, name: string, text: string)
    requires |listings| == |roots|
    ensures forall k, i :: AnswerAt(roots, listings, name, text, k, i) ==> NamedAt(listings, name, k, i)
    ensures forall k, i :: NamedAt(listings, name, k, i) ==> 0 <= k < |listings| && 0 <= i < |listings[k]|
  {
    hide Ends, Str;
  }

  lemma SpotsName(listings: Listings, name: string)
    ensures Spots(listings, name) == [] || exists k, i :: NamedAt(listings, name, k, i)
  {
    hide NamedAt, Spots;
    SpotsAre(listings, name);
    var spots := Spots(listings, name);
    if spots != [] {
      assert (spots[0].0, spots[0].1) in spots;
    }
  }

  /** What rule 3 answers where some file has the name. */
  lemma ByNameAnswers(disk: Disk, roots: seq<Location>, listings: Listings, text: string, name: string) returns (k: int, i: int)
    requires |listings| == |roots| && FilesOf(roots, listings, Spots(listings, name), Hits(disk, text)) && Hits(disk, text) != []
    ensures AnswerAt(roots, listings, name, text, k, i) && NamedAt(listings, name, k, i)
    ensures 0 <= k < |listings| && 0 <= i < |listings[k]| && ByName(disk, text) == Some(FileAt(roots, listings, k, i))
  {
    hide Ends, Str, NamedAt, Spots, Hits, ByName, AnswerAt;
    var a := AnswerPosition(disk, text);
    PositionAnswers(roots, listings, name, text, Hits(disk, text), a);
    var spot := Spots(listings, name)[a];
    k, i := spot.0, spot.1;
    AnswersAreNamed(roots, listings, name, text);
  }

  lemma MissedByRules(disk: Disk, text: string, from: Path)
    requires !IsFile(disk, Join(Parent(from), text)) && text !in disk.byRel
    ensures Find(disk, text, from) == ByName(disk, text)
  {
  }

  lemma HitsAre(disk: Disk, roots: seq<Location>, listings: Listings, text: string)
    requires BuiltFrom(disk, roots, listings)
    ensures FilesOf(roots, listings, Spots(listings, BaseName(text)), Hits(disk, text))
  {
    hide Listing, Canonical, IndexOf, FilesOf, Spots, BaseName;
    IndexUnder(roots, listings, BaseName(text));
  }

  /** When rules 1 and 2 miss, the file found is the earliest of that name, by root and listing, whose path string ends
      with the text; if none ends so, it is the earliest of that name. */
  lemma RuleThree(disk: Disk, roots: seq<Location>, listings: Listings, text: string, name: string, from: Path)
    requires BuiltFrom(disk, roots, listings) && Names(text, name)
    requires !IsFile(disk, Join(Parent(from), text)) && text !in disk.byRel
    ensures Find(disk, text, from).None? <==> forall k, i :: !NamedAt(listings, name, k, i)
    ensures forall k, i :: AnswerAt(roots, listings, name, text, k, i) ==> NamedAt(listings, name, k, i)
    ensures forall k, i :: AnswerAt(roots, listings, name, text, k, i) ==>
      Find(disk, text, from) == Some(FileAt(roots, listings, k, i))
    ensures Find(disk, text, from).Some? ==> exists k, i :: AnswerAt(roots, listings, name, text, k, i)
  {
    hide NamedAt, Spots, IsFile, Join, AnswerAt, Listing, Canonical, IndexOf, ByName, Names, FilesOf, Hits, Find, FileAt;
    NameIs(text, name);
    MissedByRules(disk, text, from);
    HitsAre(disk, roots, listings, text);
    AnswersAreNamed(roots, listings, name, text);
    if Hits(disk, text) == [] {
      NoHits(disk, text);
      NoneNamed(roots, listings, name, Hits(disk, text));
    } else {
      var k0, i0 := ByNameAnswers(disk, roots, listings, text, name);
      forall k, i | AnswerAt(roots, listings, name, text, k, i)
        ensures Find(disk, text, from) == Some(FileAt(roots, listings, k, i))
      {
        AnswerUnique(roots, listings, name, text, k, i, k0, i0);
      }
    }
  }

  lemma NoneNamed(roots: seq<Location>, listings: Listings, name: string, paths: seq<Path>)
    requires |listings| == |roots| && FilesOf(roots, listings, Spots(listings, name), paths) && paths == []
    ensures forall k, i :: !NamedAt(listings, name, k, i)
  {
    hide NamedAt, Spots;
    SpotsAre(listings, name);
  }

  lemma NoHits(disk: Disk, text: string)
    requires Hits(disk, text) == []
    ensures ByName(disk, text) == None
  {
  }

  /** Rule 3 finds nothing exactly if no root has a source file of that name. */
  lemma RuleThreeMisses(disk: Disk, roots: seq<Location>, listings: Listings, text: string, name: string, from: Path)
    requires BuiltFrom(disk, roots, listings) && Names(text, name)
    requires !IsFile(disk, Join(Parent(from), text)) && text !in disk.byRel
    ensures Find(disk, text, from).None? <==>
      forall k, rel :: 0 <= k < |roots| && Below(disk, roots[k], rel) ==> rel[|rel| - 1] != name
  {
    hide IsFile, Join, IndexOf, Names, Find, IsSource, Canonical;
    RuleThree(disk, roots, listings, text, name, from);
    forall k, i | NamedAt(listings, name, k, i)
      ensures Below(disk, roots[k], listings[k][i])
    {
      ListingIs(disk, roots[k], listings[k], listings[k][i]);
    }
    forall k, rel | 0 <= k < |roots| && Below(disk, roots[k], rel) && rel[|rel| - 1] == name
      ensures exists i :: NamedAt(listings, name, k, i)
    {
      ListingIs(disk, roots[k], listings[k], rel);
      var i :| 0 <= i < |listings[k]| && listings[k][i] == rel;
      assert NamedAt(listings, name, k, i);
    }
  }

  /** A text that names nothing is found by no rule but the first two. */
  lemma NamelessMisses(disk: Disk, roots: seq<Location>, listings: Listings, text: string, from: Path)
    requires BuiltFrom(disk, roots, listings) && forall name :: !Names(text, name)
    requires !IsFile(disk, Join(Parent(from), text)) && text !in disk.byRel
    ensures Find(disk, text, from).None?
  {
    hide NamedAt, Spots, IsFile, Join, Canonical, IndexOf, ByName, Names, Find, Hits, Listing;
    var name := NamesOrNone(text);
    MissedByRules(disk, text, from);
    HitsAre(disk, roots, listings, text);
    forall k, i ensures !NamedAt(listings, "", k, i) {
      EmptyName(disk, roots, listings, k, i);
    }
    SpotsName(listings, "");
    NoHits(disk, text);
  }

  lemma EmptyName(disk: Disk, roots: seq<Location>, listings: Listings, k: int, i: int)
    requires BuiltFrom(disk, roots, listings)
    ensures !NamedAt(listings, "", k, i)
  {
    hide IndexOf, Canonical, IsFile;
  }
}
