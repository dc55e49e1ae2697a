/** A seed file under a relative path: include lines and further files under which an entry of `combined` is lost. */
module LostKeys {
  import opened Wrappers
  import opened IncludePaths
  import opened IncludeIndex
  import opened IncludeClosure
  import opened IncludeWalk
  import opened IncludeKeys

  /** The seed `dir/name` is the file `name` in the directory `at`; `sub` is a name that occurs nowhere. */
  datatype Case = Case(disk: Disk, dir: seq<string>, name: string, at: Location, sub: string)

  function Elsewhere(c: Case): string {
    c.sub + "'"
  }

  predicate Clear(c: Case, parts: seq<string>) {
    c.sub !in parts && Elsewhere(c) !in parts
  }

  /** The seed `dir/name` and the paths found from it. */
  function TheSeed(c: Case): Path {
    Path(false, c.dir + [c.name])
  }

  function Found(c: Case, parts: seq<string>): Path {
    Path(false, c.dir + [c.sub] + parts)
  }

  /** The path that is found last; its path string is an include text as well. */
  function Last(c: Case): Path {
    Found(c, ["in", "u.h"])
  }

  function Other(c: Case): Path {
    Path(true, [Elsewhere(c), "u.h"])
  }

  function Place(c: Case, parts: seq<string>): Location {
    c.at + [c.sub] + parts
  }

  /** `dir/name` includes `sub/p.h`; that includes `u.h`, the path string of `dir/sub/in/u.h`, and `in/q.h`; that includes
      `u.h`. The index knows one more file of the name `u.h`. */
  function Extended(c: Case): Disk {
    Disk(c.disk.cwd,
         c.disk.dirs + {Place(c, []), Place(c, ["in"]), [Elsewhere(c)]},
         c.disk.files + {Place(c, ["p.h"]), Place(c, ["u.h"]), Place(c, ["in", "q.h"]), Place(c, ["in", "u.h"]), Other(c).parts},
         map[c.at + [c.name] := [Joined([c.sub, "p.h"])],
             Place(c, ["p.h"]) := ["u.h", Str(Last(c)), Joined(["in", "q.h"])],
             Place(c, ["in", "q.h"]) := ["u.h"]],
         map["u.h" := Other(c)], map["u.h" := [Other(c)]])
  }

  ghost predicate ClearDisk(c: Case) {
    Clear(c, c.disk.cwd) && forall l :: l in c.disk.dirs || l in c.disk.files ==> Clear(c, l)
  }

  ghost predicate ClearSeeds(c: Case, seeds: seq<Seed>) {
    forall i :: 0 <= i < |seeds| ==> Clear(c, seeds[i].path.parts) && seeds[i].name != Str(Last(c))
  }

  ghost predicate ValidCase(c: Case) {
    && ValidDisk(c.disk) && ClearDisk(c) && Clear(c, c.dir)
    && Component(c.sub) && c.sub != ".." && c.sub != "in"
    && Normal(TheSeed(c)) && c.name != ".." && Locate(c.disk, Path(false, c.dir)) == Some(c.at)
    && c.at in c.disk.dirs && c.at + [c.name] in c.disk.files
  }

  // ------------------------------------------------ the extended disk

  lemma ElsewhereIsComponent(c: Case)
    requires Component(c.sub)
    ensures Component(Elsewhere(c)) && Elsewhere(c) != ".." && Elsewhere(c) != c.sub && Elsewhere(c) != "in"
  {
    assert Elsewhere(c)[|c.sub|] == '\'';
  }

  lemma OtherIsFile(c: Case)
    requires ValidCase(c)
    ensures Indexed(Extended(c), Other(c)) && At(Extended(c), Other(c)) == Other(c).parts
  {
    hide ValidIndex, Normal, ClearDisk;
    ElsewhereIsComponent(c);
    var parts := Other(c).parts;
    assert [] + parts[..0] == [] && [] + parts[..1] == [Elsewhere(c)] && [] + parts == parts;
    assert forall i :: 0 <= i < 2 ==> [] + parts[..i] in Extended(c).dirs;
    WalkDown(Extended(c), [], parts);
    assert Normal(Other(c)) by { NormalPair(Other(c)); }
  }

  lemma NormalPair(p: Path)
    requires |p.parts| == 2 && Component(p.parts[0]) && Component(p.parts[1])
    ensures Normal(p)
  {
  }

  lemma NewPlaces(c: Case)
    requires ValidCase(c)
    ensures Place(c, []) !in c.disk.files && Place(c, ["in"]) !in c.disk.files && [Elsewhere(c)] !in c.disk.files
    ensures forall parts :: Place(c, parts) !in c.disk.dirs
    ensures Other(c).parts !in c.disk.dirs
  {
    hide ValidIndex, Normal;
    forall parts ensures !Clear(c, Place(c, parts)) {
      assert Place(c, parts)[|c.at|] == c.sub;
    }
    assert [Elsewhere(c)][0] == Elsewhere(c) && Other(c).parts[0] == Elsewhere(c);
  }

  lemma PlacesDiffer(c: Case, l: Location)
    requires ValidCase(c) && l in {Place(c, []), Place(c, ["in"]), [Elsewhere(c)]}
    ensures l !in {Place(c, ["p.h"]), Place(c, ["u.h"]), Place(c, ["in", "q.h"]), Place(c, ["in", "u.h"]), Other(c).parts}
  {
    hide ValidIndex, Normal, ClearDisk, ValidDisk;
    ElsewhereIsComponent(c);
    var n := |c.at|;
    assert Clear(c, c.at) by { AtIsClear(c); }
    if l == [Elsewhere(c)] {
      assert l[0] == Elsewhere(c);
    } else {
      assert l[n] == c.sub;
      assert n == 1 ==> Place(c, [])[0] == c.at[0];
      assert Place(c, ["in"])[n + 1] == "in" && Place(c, ["p.h"])[n + 1] == "p.h" && Place(c, ["u.h"])[n + 1] == "u.h";
    }
  }

  lemma AtIsClear(c: Case)
    requires ValidCase(c)
    ensures Clear(c, c.at)
  {
    hide ValidIndex, Normal, Clear;
  }

  lemma ExtendedIsValid(c: Case)
    requires ValidCase(c)
    ensures ValidDisk(Extended(c))
  {
    hide ValidIndex, Normal, ClearDisk, IsFile, Place, Other;
    NewPlaces(c);
    forall l | l in Extended(c).dirs ensures l !in Extended(c).files {
      if l !in c.disk.dirs {
        PlacesDiffer(c, l);
      }
    }
    OtherIsFile(c);
    assert ValidIndex(Extended(c)) by { OneIndexed(c); }
  }

  lemma OneIndexed(c: Case)
    requires Indexed(Extended(c), Other(c))
    ensures ValidIndex(Extended(c))
  {
    hide IsFile, Normal, Other;
  }

  lemma ClearIsOld(c: Case, l: Location)
    requires Clear(c, l)
    ensures l in Extended(c).dirs <==> l in c.disk.dirs
    ensures l in Extended(c).files <==> l in c.disk.files
  {
    assert forall parts :: Place(c, parts)[|c.at|] == c.sub;
    assert [Elsewhere(c)][0] == Elsewhere(c) && Other(c).parts[0] == Elsewhere(c);
  }

  lemma {:induction false} SameWalk(c: Case, at: Location, parts: seq<string>)
    requires Clear(c, at) && Clear(c, parts)
    ensures Walk(Extended(c), at, parts) == Walk(c.disk, at, parts)
    ensures Walk(c.disk, at, parts).Some? ==> Clear(c, Walk(c.disk, at, parts).value)
  {
    hide Extended;
    if parts != [] {
      var init := parts[..|parts| - 1];
      SameWalk(c, at, init);
      if Walk(c.disk, at, init).Some? {
        ClearIsOld(c, Walk(c.disk, at, init).value);
      }
    }
  }

  /** The paths of the seeds name what they named before. */
  lemma SameFile(c: Case, p: Path)
    requires ValidCase(c) && Clear(c, p.parts)
    ensures IsFile(Extended(c), p) <==> IsFile(c.disk, p)
    ensures IsFile(c.disk, p) ==> At(Extended(c), p) == At(c.disk, p) && Clear(c, At(c.disk, p))
  {
    hide ValidDisk, Normal, Walk;
    var start := if p.absolute then [] else c.disk.cwd;
    assert Extended(c).cwd == c.disk.cwd;
    SameWalk(c, start, p.parts);
    if Locate(c.disk, p).Some? {
      ClearIsOld(c, Locate(c.disk, p).value);
    }
  }

  lemma SeedIsFile(c: Case)
    requires ValidCase(c)
    ensures IsFile(Extended(c), TheSeed(c)) && At(Extended(c), TheSeed(c)) == c.at + [c.name]
    ensures Clear(c, c.at + [c.name])
  {
    hide ValidDisk, Normal, Extended;
    assert TheSeed(c).parts[..|c.dir|] == c.dir;
    assert IsFile(c.disk, TheSeed(c)) && At(c.disk, TheSeed(c)) == c.at + [c.name];
    assert Clear(c, TheSeed(c).parts) by {
      assert (c.at + [c.name])[|c.at|] == c.name;
    }
    SameFile(c, TheSeed(c));
  }

  // ------------------------------------------------ what the lines find

  /** A relative include text: found in the directory of the including file, or in the index. */
  lemma FindIn(c: Case, r: Path, w: seq<string>)
    requires IsFile(Extended(c), r) && w != [] && Normal(Path(false, w)) && w[|w| - 1] != ".."
    ensures var disk, q := Extended(c), Path(r.absolute, Parent(r).parts + w);
      && (IsFile(disk, q) ==> Walk(disk, Folder(At(disk, r)), w) == Some(At(disk, q)))
      && (IsPlace(disk, Walk(disk, Folder(At(disk, r)), w)) ==> IsFile(disk, q))
      && Find(disk, Joined(w), r) == if IsFile(disk, q) then Some(q) else if w[|w| - 1] == "u.h" then Some(Other(c)) else None
  {
    hide *;
    FindRelative(Extended(c), r, w);
    BaseNameOf(w);
    IndexIn(c, Joined(w));
  }

  lemma BaseNameOf(w: seq<string>)
    requires w != [] && Normal(Path(false, w))
    ensures BaseName(Joined(w)) == w[|w| - 1]
  {
    hide Normal, Parse, Joined;
    ParseStr(Path(false, w));
  }

  function Folder(l: Location): Location
    requires l != []
  {
    l[..|l| - 1]
  }

  predicate IsPlace(disk: Disk, l: Option<Location>) {
    l.Some? && l.value in disk.files
  }

  /** Rules 2 and 3. */
  function FromTables(disk: Disk, text: string): Option<Path> {
    if text in disk.byRel then Some(disk.byRel[text]) else ByName(disk, text)
  }

  lemma FindRelative(disk: Disk, r: Path, w: seq<string>)
    requires IsFile(disk, r) && w != [] && Normal(Path(false, w)) && w[|w| - 1] != ".."
    ensures var q := Path(r.absolute, Parent(r).parts + w);
      && (IsFile(disk, q) ==> Walk(disk, Folder(At(disk, r)), w) == Some(At(disk, q)))
      && (IsPlace(disk, Walk(disk, Folder(At(disk, r)), w)) ==> IsFile(disk, q))
      && (IsFile(disk, q) ==> Find(disk, Joined(w), r) == Some(q))
      && (!IsFile(disk, q) ==> Find(disk, Joined(w), r) == FromTables(disk, Joined(w)))
  {
    hide Normal, Walk, ByName, IsFile, Parse, Joined, Parent, IsPlace;
    CandidateIs(r, w);
    CandidateAt(disk, r, w);
  }

  lemma CandidateIs(r: Path, w: seq<string>)
    requires w != [] && Normal(Path(false, w))
    ensures Join(Parent(r), Joined(w)) == Path(r.absolute, Parent(r).parts + w)
  {
    hide Normal, Parse;
    ParseStr(Path(false, w));
  }

  lemma CandidateAt(disk: Disk, r: Path, w: seq<string>)
    requires IsFile(disk, r) && w != [] && w[|w| - 1] != ".."
    ensures var q := Path(r.absolute, Parent(r).parts + w);
      && (IsFile(disk, q) ==> Walk(disk, Folder(At(disk, r)), w) == Some(At(disk, q)))
      && (IsPlace(disk, Walk(disk, Folder(At(disk, r)), w)) ==> IsFile(disk, q))
  {
    hide Walk;
    var q := Path(r.absolute, Parent(r).parts + w);
    WalkConcat(disk, if r.absolute then [] else disk.cwd, Parent(r).parts, w);
    assert q.parts[|q.parts| - 1] == w[|w| - 1];
  }

  lemma IndexIn(c: Case, text: string)
    ensures FromTables(Extended(c), text) == if BaseName(text) == "u.h" then Some(Other(c)) else None
  {
    hide BaseName, Other;
    OneText("u.h");
    BaseNameOf(["u.h"]);
  }

  predicate Via(r: Path, f: Path, w: seq<string>) {
    f == Path(r.absolute, Parent(r).parts + w)
  }

  /** What the lines of `r` find: `text` finds `f`. */
  ghost predicate Step(c: Case, r: Path, text: string, f: Path)
    requires IsFile(Extended(c), r)
  {
    var l := At(Extended(c), r);
    || (l == c.at + [c.name] && Via(r, f, [c.sub, "p.h"]))
    || (l == Place(c, ["p.h"]) && text == "u.h" && Via(r, f, ["u.h"]))
    || (l == Place(c, ["p.h"]) && text == Str(Last(c)) && (f == Other(c) || Via(r, f, Last(c).parts)))
    || (l == Place(c, ["p.h"]) && Via(r, f, ["in", "q.h"]))
    || (l == Place(c, ["in", "q.h"]) && text == "u.h" && Via(r, f, ["u.h"]))
  }

  /** A step leads to a file that was not there before. */
  ghost predicate NewStep(c: Case, r: Path, text: string, f: Path) {
    && IsFile(Extended(c), r) && Step(c, r, text, f)
    && IsFile(Extended(c), f) && !Clear(c, At(Extended(c), f))
  }

  lemma Folders(c: Case)
    ensures Folder(c.at + [c.name]) == c.at && Folder(Place(c, ["p.h"])) == Place(c, [])
    ensures Folder(Place(c, ["in", "q.h"])) == Place(c, ["in"])
    ensures !Clear(c, Place(c, ["p.h"])) && !Clear(c, Place(c, ["in", "q.h"]))
  {
    assert Place(c, ["p.h"])[|c.at|] == Place(c, ["in", "q.h"])[|c.at|] == c.sub;
  }

  lemma OneText(w: string)
    requires Component(w)
    ensures Joined([w]) == w && Normal(Path(false, [w]))
  {
  }

  lemma FromSeed(c: Case, r: Path, f: Path)
    requires ValidCase(c) && IsFile(Extended(c), r) && At(Extended(c), r) == c.at + [c.name]
    requires Find(Extended(c), Joined([c.sub, "p.h"]), r) == Some(f)
    ensures NewStep(c, r, Joined([c.sub, "p.h"]), f)
  {
    hide ClearDisk, IsFile, ValidDisk, Extended, Other, Find;
    var w := [c.sub, "p.h"];
    NormalPair(Path(false, w));
    FindIn(c, r, w);
    Folders(c);
    WalkPlain(Extended(c), c.at, w);
    assert (c.at + w)[|c.at|] == c.sub;
  }

  lemma OneDown(disk: Disk, at: Location, x: string)
    requires at in disk.dirs && x != ".."
    ensures Walk(disk, at, [x]) == Some(at + [x])
  {
    assert [x][..0] == [];
  }

  lemma TwoDown(disk: Disk, at: Location, x: string, y: string)
    requires at in disk.dirs && at + [x] in disk.dirs && x != ".." && y != ".."
    ensures Walk(disk, at, [x, y]) == Some(at + [x] + [y])
  {
    OneDown(disk, at, x);
    assert [x, y][..1] == [x];
  }

  lemma PlacesKnown(c: Case)
    ensures Place(c, []) in Extended(c).dirs && Place(c, ["in"]) in Extended(c).dirs
    ensures Place(c, ["u.h"]) in Extended(c).files && Place(c, ["in", "u.h"]) in Extended(c).files
    ensures Place(c, ["in", "q.h"]) in Extended(c).files
  {
    hide Place, Other;
  }

  lemma PlaceOfU(c: Case, folder: seq<string>)
    requires folder in {[], ["in"]}
    ensures Walk(Extended(c), Place(c, folder), ["u.h"]) == Some(Place(c, folder + ["u.h"]))
    ensures IsPlace(Extended(c), Some(Place(c, folder + ["u.h"])))
  {
    hide Extended, Walk;
    PlacesKnown(c);
    OneDown(Extended(c), Place(c, folder), "u.h");
    assert Place(c, folder) + ["u.h"] == Place(c, folder + ["u.h"]);
    assert [] + ["u.h"] == ["u.h"] && ["in"] + ["u.h"] == ["in", "u.h"];
  }

  lemma FindsU(c: Case, r: Path, folder: seq<string>)
    requires ValidCase(c) && IsFile(Extended(c), r) && Folder(At(Extended(c), r)) == Place(c, folder)
    requires folder in {[], ["in"]}
    ensures var f := Path(r.absolute, Parent(r).parts + ["u.h"]);
      && Find(Extended(c), "u.h", r) == Some(f) && IsFile(Extended(c), f)
      && At(Extended(c), f) == Place(c, folder + ["u.h"])
  {
    hide ValidCase, IsFile, Other, Find, Normal, Place, Extended, Walk, IsPlace;
    OneText("u.h");
    FindIn(c, r, ["u.h"]);
    PlaceOfU(c, folder);
  }

  lemma PlaceDeeper(c: Case)
    ensures Walk(Extended(c), Place(c, []), ["in", "q.h"]) == Some(Place(c, ["in", "q.h"]))
    ensures IsPlace(Extended(c), Some(Place(c, ["in", "q.h"])))
  {
    hide Extended, Walk;
    PlacesKnown(c);
    assert Place(c, []) + ["in"] == Place(c, ["in"]) && Place(c, ["in"]) + ["q.h"] == Place(c, ["in", "q.h"]);
    TwoDown(Extended(c), Place(c, []), "in", "q.h");
  }

  lemma FindsDeeper(c: Case, r: Path)
    requires ValidCase(c) && IsFile(Extended(c), r) && At(Extended(c), r) == Place(c, ["p.h"])
    ensures var f := Path(r.absolute, Parent(r).parts + ["in", "q.h"]);
      && Find(Extended(c), Joined(["in", "q.h"]), r) == Some(f) && IsFile(Extended(c), f)
      && At(Extended(c), f) == Place(c, ["in", "q.h"])
  {
    hide ValidCase, IsFile, Other, Find, Extended, Walk, IsPlace;
    NormalPair(Path(false, ["in", "q.h"]));
    FindIn(c, r, ["in", "q.h"]);
    Folders(c);
    PlaceDeeper(c);
  }

  lemma LastIsNormal(c: Case)
    requires ValidCase(c)
    ensures Normal(Last(c)) && Str(Last(c)) == Joined(Last(c).parts)
  {
    hide ClearDisk, ValidDisk;
    forall i | 0 <= i < |Last(c).parts| ensures Component(Last(c).parts[i]) {
      if i < |c.dir| {
        assert Last(c).parts[i] == TheSeed(c).parts[i];
      }
    }
  }

  /** Wherever the path string of the last path leads to, the location contains `sub`. */
  lemma LastLeads(c: Case, at: Location, l: Location)
    requires c.sub != ".." && Walk(Extended(c), at, Last(c).parts) == Some(l)
    ensures |l| >= 2 && l[|l| - 2] == "in" && !Clear(c, l)
  {
    hide Extended;
    var w := [c.sub, "in", "u.h"];
    assert Last(c).parts == c.dir + w;
    WalkConcat(Extended(c), at, c.dir, w);
    var mid := Walk(Extended(c), at, c.dir).value;
    WalkPlain(Extended(c), mid, w);
    assert l == mid + w && l[|mid|] == c.sub;
  }

  lemma FindsOther(c: Case, r: Path, f: Path)
    requires ValidCase(c) && IsFile(Extended(c), r) && At(Extended(c), r) == Place(c, ["p.h"])
    requires Find(Extended(c), Str(Last(c)), r) == Some(f)
    ensures IsFile(Extended(c), f) && !Clear(c, At(Extended(c), f))
    ensures f == Other(c) || Via(r, f, Last(c).parts)
  {
    hide ClearDisk, IsFile, ValidDisk, Find, Normal, Extended, Other;
    LastIsNormal(c);
    FindIn(c, r, Last(c).parts);
    OtherIsNew(c);
    if f != Other(c) {
      LastLeads(c, Folder(At(Extended(c), r)), At(Extended(c), f));
    }
  }

  lemma OtherIsNew(c: Case)
    requires ValidCase(c)
    ensures IsFile(Extended(c), Other(c)) && !Clear(c, At(Extended(c), Other(c)))
    ensures At(Extended(c), Other(c)) == [Elsewhere(c), "u.h"]
  {
    hide ClearDisk, IsFile, ValidDisk, Normal, Extended;
    OtherIsFile(c);
    assert Other(c).parts[0] == Elsewhere(c);
  }

  lemma SeedStep(c: Case, r: Path, i: nat)
    requires ValidCase(c) && IsFile(Extended(c), r) && At(Extended(c), r) == c.at + [c.name]
    requires i < |Lines(Extended(c), r)| && Lines(Extended(c), r)[i].found.Some?
    ensures NewStep(c, r, Lines(Extended(c), r)[i].text, Lines(Extended(c), r)[i].found.value)
  {
    hide ValidCase, IsFile, Find, NewStep;
    Folders(c);
    SeedIsNoPlace(c);
    FromSeed(c, r, Lines(Extended(c), r)[i].found.value);
  }

  lemma SeedIsNoPlace(c: Case)
    requires ValidCase(c)
    ensures Clear(c, c.at + [c.name])
  {
    hide ValidDisk, Normal;
  }

  /** The lines of the two new files with lines. */
  lemma PlaceStep(c: Case, r: Path, i: nat)
    requires ValidCase(c) && IsFile(Extended(c), r) && At(Extended(c), r) == Place(c, ["p.h"])
    requires i < |Lines(Extended(c), r)| && Lines(Extended(c), r)[i].found.Some?
    ensures NewStep(c, r, Lines(Extended(c), r)[i].text, Lines(Extended(c), r)[i].found.value)
  {
    hide ValidCase, IsFile, Find, Clear;
    PlaceTexts(c);
    Folders(c);
    SeedIsNoPlace(c);
    var f := Lines(Extended(c), r)[i].found.value;
    if i == 0 {
      FindsU(c, r, []);
      NewPlaceIsNotClear(c, [] + ["u.h"]);
    } else if i == 1 {
      FindsOther(c, r, f);
    } else {
      FindsDeeper(c, r);
      NewPlaceIsNotClear(c, ["in", "q.h"]);
    }
  }

  lemma NewPlaceIsNotClear(c: Case, parts: seq<string>)
    ensures !Clear(c, Place(c, parts))
  {
    assert Place(c, parts)[|c.at|] == c.sub;
  }

  lemma PlaceTexts(c: Case)
    requires ValidCase(c)
    ensures TextsAt(Extended(c), c.at + [c.name]) == [Joined([c.sub, "p.h"])]
    ensures TextsAt(Extended(c), Place(c, ["p.h"])) == ["u.h", Str(Last(c)), Joined(["in", "q.h"])]
    ensures TextsAt(Extended(c), Place(c, ["in", "q.h"])) == ["u.h"]
    ensures Extended(c).lines.Keys == {c.at + [c.name], Place(c, ["p.h"]), Place(c, ["in", "q.h"])}
  {
    hide ValidCase, Str, Joined, Other, Clear;
    SeedIsNoPlace(c);
    Folders(c);
    assert Place(c, ["p.h"])[|c.at| + 1] == "p.h" && Place(c, ["in", "q.h"])[|c.at| + 1] == "in";
  }

  lemma DeepStep(c: Case, r: Path, i: nat)
    requires ValidCase(c) && IsFile(Extended(c), r) && At(Extended(c), r) == Place(c, ["in", "q.h"])
    requires i < |Lines(Extended(c), r)| && Lines(Extended(c), r)[i].found.Some?
    ensures NewStep(c, r, Lines(Extended(c), r)[i].text, Lines(Extended(c), r)[i].found.value)
  {
    hide ValidCase, IsFile, Find, Clear;
    PlaceTexts(c);
    Folders(c);
    FindsU(c, r, ["in"]);
    NewPlaceIsNotClear(c, ["in"] + ["u.h"]);
  }

  /** Every line that finds something is one of the steps. */
  lemma LinesAreSteps(c: Case, r: Path, i: nat)
    requires ValidCase(c) && i < |Lines(Extended(c), r)| && Lines(Extended(c), r)[i].found.Some?
    ensures NewStep(c, r, Lines(Extended(c), r)[i].text, Lines(Extended(c), r)[i].found.value)
  {
    hide ValidCase, NewStep, Find, Extended, Place;
    PlaceTexts(c);
    var l := At(Extended(c), r);
    if l == c.at + [c.name] {
      SeedStep(c, r, i);
    } else if l == Place(c, ["p.h"]) {
      PlaceStep(c, r, i);
    } else {
      DeepStep(c, r, i);
    }
  }

  // ------------------------------------------------ who finds what

  /** Ends with `tail`, and `sub` is not in front of it. */
  predicate Tailed(c: Case, parts: seq<string>, tail: seq<string>) {
    |parts| >= |tail| && parts[|parts| - |tail|..] == tail && c.sub !in parts[..|parts| - |tail|]
  }

  /** The name `sub` occurs in a path with include lines once at most, where it has to. */
  ghost predicate Plain(c: Case, p: Path) {
    IsFile(Extended(c), p) ==>
      var l := At(Extended(c), p);
      && (l == c.at + [c.name] ==> Tailed(c, p.parts, []))
      && (l == Place(c, ["p.h"]) ==> Tailed(c, p.parts, [c.sub, "p.h"]))
      && (l == Place(c, ["in", "q.h"]) ==> Tailed(c, p.parts, [c.sub, "in", "q.h"]))
  }

  lemma TailGrows(c: Case, r: Path, f: Path, tail: seq<string>, w: seq<string>)
    requires r.parts != [] && w != [] && Via(r, f, w)
    requires tail == [] || |tail| >= 2
    requires Tailed(c, r.parts, tail)
    ensures tail == [] ==> Tailed(c, f.parts, w)
    ensures tail != [] ==> Tailed(c, f.parts, tail[..|tail| - 1] + w)
  {
    var n := |r.parts| - |tail|;
    var e := r.parts[..n];
    if tail == [] {
      assert f.parts == r.parts[..|r.parts| - 1] + w;
      assert f.parts[..|f.parts| - |w|] == r.parts[..|r.parts| - 1];
      assert forall i :: 0 <= i < |r.parts| ==> r.parts[..n][i] == r.parts[i];
    } else {
      assert r.parts == e + tail;
      assert r.parts[..|r.parts| - 1] == e + tail[..|tail| - 1];
      assert f.parts == e + (tail[..|tail| - 1] + w);
    }
  }

  /** The last component of a file's path is that of its place. */
  lemma LastComponent(disk: Disk, p: Path)
    requires IsFile(disk, p)
    ensures p.parts != [] && At(disk, p) != [] && p.parts[|p.parts| - 1] == At(disk, p)[|At(disk, p)| - 1]
  {
  }

  lemma ViaLast(r: Path, f: Path, w: seq<string>)
    requires Via(r, f, w) && w != []
    ensures f.parts != [] && f.parts[|f.parts| - 1] == w[|w| - 1]
  {
  }

  lemma PlainByEnd(c: Case, f: Path)
    requires ValidCase(c) && IsFile(Extended(c), f) && !Clear(c, At(Extended(c), f))
    requires
      var last := f.parts[|f.parts| - 1];
      || last == "u.h" || (last == "p.h" && Tailed(c, f.parts, [c.sub, "p.h"]))
      || (last == "q.h" && Tailed(c, f.parts, [c.sub, "in", "q.h"]))
    ensures Plain(c, f)
  {
    hide ValidCase, IsFile, Extended, Clear, Tailed, Place;
    SeedIsNoPlace(c);
    LastComponent(Extended(c), f);
    PlaceEnds(c);
  }

  lemma PlaceEnds(c: Case)
    ensures |Place(c, ["p.h"])| == |c.at| + 2 && Place(c, ["p.h"])[|c.at| + 1] == "p.h"
    ensures |Place(c, ["in", "q.h"])| == |c.at| + 3 && Place(c, ["in", "q.h"])[|c.at| + 2] == "q.h"
  {
  }

  lemma StepIsPlain(c: Case, r: Path, text: string, f: Path)
    requires ValidCase(c) && NewStep(c, r, text, f) && Plain(c, r)
    ensures Plain(c, f)
  {
    hide ValidCase, IsFile, Extended, Via, Clear, Other, Tailed, Last, Place, Step;
    LastComponent(Extended(c), r);
    LastComponent(Extended(c), f);
    var l := At(Extended(c), r);
    if Via(r, f, [c.sub, "p.h"]) && l == c.at + [c.name] {
      TailGrows(c, r, f, [], [c.sub, "p.h"]);
      ViaLast(r, f, [c.sub, "p.h"]);
    } else if Via(r, f, ["in", "q.h"]) && l == Place(c, ["p.h"]) {
      TailGrows(c, r, f, [c.sub, "p.h"], ["in", "q.h"]);
      assert [c.sub, "p.h"][..1] + ["in", "q.h"] == [c.sub, "in", "q.h"];
      ViaLast(r, f, ["in", "q.h"]);
    } else {
      EndsWithU(c, r, text, f);
    }
    PlainByEnd(c, f);
  }

  lemma EndsWithU(c: Case, r: Path, text: string, f: Path)
    requires NewStep(c, r, text, f)
    requires !(Via(r, f, [c.sub, "p.h"]) && At(Extended(c), r) == c.at + [c.name])
    requires !(Via(r, f, ["in", "q.h"]) && At(Extended(c), r) == Place(c, ["p.h"]))
    ensures f.parts != [] && f.parts[|f.parts| - 1] == "u.h"
  {
    hide IsFile, Extended, Clear, Place;
  }

  lemma {:induction false} RouteIsPlain(c: Case, seeds: seq<Seed>, route: seq<Path>, p: Path)
    requires ValidCase(c) && ClearSeeds(c, seeds) && IsRoute(Extended(c), seeds, route, p)
    ensures Plain(c, p)
    decreases |route|
  {
    hide ValidCase, Plain, NewStep, Extended, ClearSeeds, Lines, IsSeed;
    if |route| == 1 {
      SeedIsPlain(c, seeds, p);
    } else {
      var r := route[|route| - 2];
      assert IsRoute(Extended(c), seeds, route[..|route| - 1], r);
      RouteIsPlain(c, seeds, route[..|route| - 1], r);
      assert Includes(Extended(c), r, route[|route| - 1]);
      var i :| 0 <= i < |Lines(Extended(c), r)| && Lines(Extended(c), r)[i].found == Some(p);
      LinesAreSteps(c, r, i);
      StepIsPlain(c, r, Lines(Extended(c), r)[i].text, p);
    }
  }

  lemma SeedIsPlain(c: Case, seeds: seq<Seed>, p: Path)
    requires ValidCase(c) && ClearSeeds(c, seeds) && IsSeed(seeds, p)
    ensures Plain(c, p)
  {
    hide ValidCase, IsFile, Extended, Place, Tailed;
    var i :| 0 <= i < |seeds| && seeds[i].path == p;
    assert Clear(c, p.parts);
    SameFile(c, p);
    NewPlaceIsNotClear(c, ["p.h"]);
    NewPlaceIsNotClear(c, ["in", "q.h"]);
    ClearIsTailed(c, p.parts);
  }

  lemma ClearIsTailed(c: Case, parts: seq<string>)
    requires Clear(c, parts)
    ensures Tailed(c, parts, [])
  {
    assert parts[..|parts|] == parts;
  }

  // ------------------------------------------------ the finders

  lemma ViaParent(c: Case, r: Path, f: Path, w: seq<string>, e: seq<string>, w': seq<string>)
    requires Via(r, f, w) && f == Path(false, e + w') && |w| == |w'|
    ensures w == w' && Parent(r).parts == e && !r.absolute
  {
    assert f.parts[..|e|] == e && f.parts[|e|..] == w';
    assert f.parts[..|Parent(r).parts|] == Parent(r).parts && f.parts[|Parent(r).parts|..] == w;
  }

  lemma PathOfParent(disk: Disk, r: Path, e: seq<string>, last: string)
    requires IsFile(disk, r) && Parent(r).parts == e && !r.absolute && At(disk, r)[|At(disk, r)| - 1] == last
    ensures r == Path(false, e + [last])
    ensures Walk(disk, disk.cwd, e) == Some(Folder(At(disk, r)))
  {
    assert r.parts == Parent(r).parts + [r.parts[|r.parts| - 1]];
  }

  lemma {:induction false} WalkEnds(disk: Disk, at: Location, w: seq<string>, x: string, l: Location)
    requires x != ".." && Walk(disk, at, w + [x]) == Some(l)
    ensures l != [] && l[|l| - 1] == x
  {
    assert (w + [x])[..|w|] == w;
  }

  lemma FinderOfDeep(c: Case, r: Path, text: string)
    requires NewStep(c, r, text, Found(c, ["in", "q.h"]))
    ensures r == Found(c, ["p.h"])
  {
    hide IsFile, Extended, Clear, Via, Place;
    var f := Found(c, ["in", "q.h"]);
    var e := c.dir + [c.sub];
    assert f.parts == e + ["in", "q.h"];
    NotEndingInQ(c, r, text, f);
    ViaParent(c, r, f, ["in", "q.h"], e, ["in", "q.h"]);
    PlaceEnds(c);
    PathOfParent(Extended(c), r, e, "p.h");
    assert e + ["p.h"] == c.dir + [c.sub] + ["p.h"];
  }

  lemma NotEndingInQ(c: Case, r: Path, text: string, f: Path)
    requires NewStep(c, r, text, f) && f.parts != [] && f.parts[|f.parts| - 1] == "q.h"
    ensures Via(r, f, ["in", "q.h"]) && At(Extended(c), r) == Place(c, ["p.h"])
  {
    hide IsFile, Extended, Clear, Place;
  }

  /** Steps that find a path ending in `u.h`. */
  ghost predicate StepToU(c: Case, r: Path, text: string, f: Path)
    requires IsFile(Extended(c), r)
  {
    var l := At(Extended(c), r);
    || (l == Place(c, ["p.h"]) && text == "u.h" && Via(r, f, ["u.h"]))
    || (l == Place(c, ["p.h"]) && text == Str(Last(c)) && (f == Other(c) || Via(r, f, Last(c).parts)))
    || (l == Place(c, ["in", "q.h"]) && text == "u.h" && Via(r, f, ["u.h"]))
  }

  lemma EndingInU(c: Case, r: Path, text: string, f: Path)
    requires NewStep(c, r, text, f) && f.parts != [] && f.parts[|f.parts| - 1] == "u.h"
    ensures StepToU(c, r, text, f)
  {
    hide IsFile, Extended, Clear, Place, Other, Last;
  }

  /** The directory of a file read in `sub` itself is not called `in`. */
  lemma NotInIn(c: Case, r: Path, e: seq<string>)
    requires ValidCase(c) && IsFile(Extended(c), r) && At(Extended(c), r) == Place(c, ["p.h"])
    ensures !(Parent(r).parts == e + ["in"] && !r.absolute)
  {
    hide ValidDisk, ClearDisk, Normal, Extended, IsFile, Walk;
    if Parent(r).parts == e + ["in"] && !r.absolute {
      PlaceEnds(c);
      PathOfParent(Extended(c), r, e + ["in"], "p.h");
      Folders(c);
      WalkEnds(Extended(c), Extended(c).cwd, e, "in", Place(c, []));
    }
  }

  lemma FinderOfLast(c: Case, r: Path, text: string)
    requires ValidCase(c) && NewStep(c, r, text, Last(c))
    ensures r == Found(c, ["in", "q.h"])
  {
    hide ValidCase, IsFile, Extended, Clear, Via, Place;
    var f := Last(c);
    var e := c.dir + [c.sub] + ["in"];
    assert f.parts == e + ["u.h"];
    EndingInU(c, r, text, f);
    if Via(r, f, ["u.h"]) {
      ViaParent(c, r, f, ["u.h"], e, ["u.h"]);
      NotInInCase(c, r, e);
      PlaceEnds(c);
      PathOfParent(Extended(c), r, e, "q.h");
      assert e + ["q.h"] == c.dir + [c.sub] + ["in", "q.h"];
    } else {
      LastNotFromText(c, r);
    }
  }

  lemma NotInInCase(c: Case, r: Path, e: seq<string>)
    requires ValidCase(c) && IsFile(Extended(c), r) && Parent(r).parts == e && !r.absolute
    requires e == c.dir + [c.sub] + ["in"]
    ensures At(Extended(c), r) != Place(c, ["p.h"])
  {
    hide ValidCase, IsFile, Extended, Place;
    if At(Extended(c), r) == Place(c, ["p.h"]) {
      NotInIn(c, r, c.dir + [c.sub]);
    }
  }

  /** From the working directory the text would lead to the last path; but nothing new is there. */
  lemma LastNotFromText(c: Case, r: Path)
    requires ValidCase(c) && IsFile(Extended(c), r) && At(Extended(c), r) == Place(c, ["p.h"])
    ensures !Via(r, Last(c), Last(c).parts)
  {
    hide ValidDisk, Normal, Extended, IsFile, Walk;
    if Via(r, Last(c), Last(c).parts) {
      ViaParent(c, r, Last(c), Last(c).parts, [], Last(c).parts);
      PlaceEnds(c);
      PathOfParent(Extended(c), r, [], "p.h");
      Folders(c);
      FromWorkingDirectory(c);
    }
  }

  lemma FromWorkingDirectory(c: Case)
    requires ValidCase(c)
    ensures Walk(Extended(c), Extended(c).cwd, []) != Some(Place(c, []))
  {
    hide ValidDisk, Normal;
    NewPlaceIsNotClear(c, []);
  }

  lemma FirstIsNoLast(c: Case, r: Path)
    requires c.sub != "in"
    ensures !Via(r, Found(c, ["u.h"]), Last(c).parts)
  {
    assert Found(c, ["u.h"]).parts[|c.dir|] == c.sub && Last(c).parts[|c.dir| + 1] == "in";
    var parts := Parent(r).parts + Last(c).parts;
    assert parts[|parts| - 2] == "in";
  }

  lemma FinderOfFirst(c: Case, r: Path, text: string)
    requires ValidCase(c) && NewStep(c, r, text, Found(c, ["u.h"]))
    ensures text == "u.h"
  {
    hide ValidDisk, Normal, ClearDisk, IsFile, Extended, Clear, Place;
    var f := Found(c, ["u.h"]);
    EndingInU(c, r, text, f);
    FirstIsNoLast(c, r);
  }

  /** What the path string of the last path finds from `sub/p.h`. */
  ghost predicate IsSecond(c: Case, f: Path) {
    f == Other(c) || f == Path(false, c.dir + [c.sub] + c.dir + [c.sub, "in"] + ["u.h"])
  }

  lemma NotElsewhere(c: Case)
    requires Component(c.sub)
    ensures Place(c, []) != [Elsewhere(c)] && Place(c, ["in"]) != [Elsewhere(c)]
  {
    ElsewhereIsComponent(c);
    assert Place(c, [])[|c.at|] == c.sub && |Place(c, ["in"])| == |c.at| + 2;
  }

  lemma OtherByText(c: Case, r: Path)
    requires ValidCase(c) && IsFile(Extended(c), r)
    requires At(Extended(c), r) in {Place(c, ["p.h"]), Place(c, ["in", "q.h"])}
    ensures !Via(r, Other(c), ["u.h"])
  {
    hide ValidDisk, Normal, ClearDisk, Extended, IsFile, Clear;
    if Via(r, Other(c), ["u.h"]) {
      assert Other(c).parts[..1] == [Elsewhere(c)];
      assert (Parent(r).parts + ["u.h"])[..|Parent(r).parts|] == Parent(r).parts;
      FolderPlain(c, r);
      Folders(c);
      NotElsewhere(c);
    }
  }

  lemma FolderPlain(c: Case, r: Path)
    requires Component(c.sub) && IsFile(Extended(c), r) && r.absolute && Parent(r).parts == [Elsewhere(c)]
    ensures Folder(At(Extended(c), r)) == [Elsewhere(c)]
  {
    hide Extended;
    ElsewhereIsComponent(c);
    WalkPlain(Extended(c), [], [Elsewhere(c)]);
    assert [] + [Elsewhere(c)] == [Elsewhere(c)];
  }

  lemma FinderOfSecond(c: Case, r: Path, text: string, f: Path)
    requires ValidCase(c) && NewStep(c, r, text, f) && Plain(c, r) && IsSecond(c, f)
    ensures text == Str(Last(c))
  {
    hide ValidCase, IsFile, Extended, Clear, Via, Place, Other, Tailed;
    assert f.parts != [] && f.parts[|f.parts| - 1] == "u.h" by { SecondEnds(c, f); }
    EndingInU(c, r, text, f);
    if Via(r, f, ["u.h"]) {
      if f == Other(c) {
        OtherByText(c, r);
      } else {
        var e := c.dir + [c.sub] + c.dir + [c.sub, "in"];
        ViaParent(c, r, f, ["u.h"], e, ["u.h"]);
        NotTwice(c, r, e);
      }
    }
  }

  lemma SecondEnds(c: Case, f: Path)
    requires IsSecond(c, f)
    ensures f.parts != [] && f.parts[|f.parts| - 1] == "u.h"
  {
  }

  lemma TwiceIsNotTailed(c: Case, parts: seq<string>)
    requires parts == c.dir + [c.sub] + c.dir + [c.sub, "in"] + ["q.h"]
    ensures !Tailed(c, parts, [c.sub, "in", "q.h"])
  {
    assert parts[..|parts| - 3][|c.dir|] == c.sub;
  }

  lemma NotTwice(c: Case, r: Path, e: seq<string>)
    requires ValidCase(c) && IsFile(Extended(c), r) && Plain(c, r)
    requires At(Extended(c), r) in {Place(c, ["p.h"]), Place(c, ["in", "q.h"])}
    requires e == c.dir + [c.sub] + c.dir + [c.sub, "in"]
    ensures !(Parent(r).parts == e && !r.absolute)
  {
    hide ValidCase, IsFile, Extended, Place;
    if Parent(r).parts == e && !r.absolute {
      assert e == c.dir + [c.sub] + c.dir + [c.sub] + ["in"];
      if At(Extended(c), r) == Place(c, ["p.h"]) {
        NotInIn(c, r, c.dir + [c.sub] + c.dir + [c.sub]);
      } else {
        PlaceEnds(c);
        PathOfParent(Extended(c), r, e, "q.h");
        TwiceIsNotTailed(c, r.parts);
      }
    }
  }

  lemma SecondIs(c: Case, f: Path)
    requires f == Other(c) || Via(Found(c, ["p.h"]), f, Last(c).parts)
    ensures IsSecond(c, f)
  {
    hide Other;
    if f != Other(c) {
      assert Parent(Found(c, ["p.h"])).parts == c.dir + [c.sub];
      assert f.parts == c.dir + [c.sub] + c.dir + [c.sub, "in"] + ["u.h"];
    }
  }

  // ------------------------------------------------ the walk over the extended disk ends

  function Rank(c: Case, l: Location): nat {
    if l == c.at + [c.name] then 0 else if l == Place(c, ["p.h"]) then 1 else if l == Place(c, ["in", "q.h"]) then 2 else 3
  }

  lemma HopRises(c: Case, h: Hop)
    requires ValidCase(c) && IsHop(Extended(c), h)
    ensures Rank(c, h.from) < Rank(c, h.to)
  {
    hide ValidCase, Extended, Place, Walk, Clear, Parse;
    PlaceTexts(c);
    SeedIsNoPlace(c);
    Folders(c);
    PlaceEnds(c);
    if h.from == c.at + [c.name] {
      HopFromSeed(c, h);
    } else if h.from == Place(c, ["p.h"]) {
      HopFromPlace(c, h);
    } else {
      HopFromDeep(c, h);
    }
  }

  lemma RelativeText(w: seq<string>)
    requires w != [] && Normal(Path(false, w))
    ensures Parse(Joined(w)) == Path(false, w)
  {
    hide Normal, Parse;
    ParseStr(Path(false, w));
  }

  lemma HopFromSeed(c: Case, h: Hop)
    requires ValidCase(c) && IsHop(Extended(c), h) && h.from == c.at + [c.name] && h.text == Joined([c.sub, "p.h"])
    ensures h.to == Place(c, ["p.h"])
  {
    hide ValidDisk, ClearDisk, Extended, Normal, Joined, Parse;
    var w := [c.sub, "p.h"];
    NormalPair(Path(false, w));
    RelativeText(w);
    Folders(c);
    WalkPlain(Extended(c), c.at, w);
    assert c.at + w == Place(c, ["p.h"]);
  }

  lemma HopFromPlace(c: Case, h: Hop)
    requires ValidCase(c) && IsHop(Extended(c), h) && h.from == Place(c, ["p.h"])
    requires h.text in {"u.h", Str(Last(c)), Joined(["in", "q.h"])}
    ensures !Clear(c, h.to) && h.to != Place(c, ["p.h"])
  {
    hide ValidCase, Extended, Normal, Joined, Parse, Str, Walk, Clear, Place;
    Folders(c);
    PlaceEnds(c);
    if h.text == "u.h" {
      OneText("u.h");
      RelativeText(["u.h"]);
      PlaceOfU(c, []);
      NewPlaceIsNotClear(c, [] + ["u.h"]);
      assert [] + ["u.h"] == ["u.h"];
      WalkEnds(Extended(c), Place(c, []), [], "u.h", h.to);
    } else if h.text == Str(Last(c)) {
      LastIsNormal(c);
      ParseStr(Last(c));
      LastLeadsCase(c, Place(c, []), h.to);
    } else {
      NormalPair(Path(false, ["in", "q.h"]));
      RelativeText(["in", "q.h"]);
      PlaceDeeper(c);
      NewPlaceIsNotClear(c, ["in", "q.h"]);
    }
  }

  lemma LastLeadsCase(c: Case, at: Location, l: Location)
    requires ValidCase(c) && Walk(Extended(c), at, Last(c).parts) == Some(l)
    ensures !Clear(c, l) && l != [] && l[|l| - 1] == "u.h"
  {
    hide ValidDisk, ClearDisk, Normal, Extended;
    LastLeads(c, at, l);
    assert Last(c).parts == c.dir + [c.sub, "in"] + ["u.h"];
    WalkEnds(Extended(c), at, c.dir + [c.sub, "in"], "u.h", l);
  }

  lemma HopFromDeep(c: Case, h: Hop)
    requires ValidCase(c) && IsHop(Extended(c), h) && h.from == Place(c, ["in", "q.h"]) && h.text == "u.h"
    ensures !Clear(c, h.to) && h.to != [] && h.to[|h.to| - 1] == "u.h"
  {
    hide ValidCase, Extended, Normal, Parse, Walk, Place, Clear;
    Folders(c);
    OneText("u.h");
    RelativeText(["u.h"]);
    PlaceOfU(c, ["in"]);
    NewPlaceIsNotClear(c, ["in"] + ["u.h"]);
    assert [] + ["u.h"] == ["u.h"];
    WalkEnds(Extended(c), Place(c, ["in"]), [], "u.h", h.to);
  }

  lemma {:induction false} HopsRise(c: Case, a: Location, hops: seq<Hop>, b: Location)
    requires ValidCase(c) && Leads(Extended(c), a, hops, b)
    ensures hops == [] || Rank(c, a) < Rank(c, b)
    decreases |hops|
  {
    hide ValidCase, Extended, IsHop, Rank;
    if hops != [] {
      HopRises(c, hops[0]);
      HopsRise(c, hops[0].to, hops[1..], b);
    }
  }

  lemma NoCycle(c: Case, seeds: seq<Seed>)
    requires ValidCase(c)
    ensures Ends(Extended(c), seeds)
  {
    hide ValidCase, Extended, IsFile, Reachable, Leads, Ends, Rank;
    forall p, hops | Reachable(Extended(c), seeds, p) && IsFile(Extended(c), p)
                     && Leads(Extended(c), At(Extended(c), p), hops, At(Extended(c), p))
      ensures !SomeDotted(hops)
    {
      HopsRise(c, At(Extended(c), p), hops, At(Extended(c), p));
    }
    ExtendedIsValid(c);
    WalkEndsIff(Extended(c), seeds);
  }

  // ------------------------------------------------ what the walk reads

  lemma SeedFinds(c: Case)
    requires ValidCase(c)
    ensures IsFile(Extended(c), Found(c, ["p.h"])) && At(Extended(c), Found(c, ["p.h"])) == Place(c, ["p.h"])
    ensures Includes(Extended(c), TheSeed(c), Found(c, ["p.h"]))
  {
    hide ValidDisk, ClearDisk, Normal, Find, IsFile, Walk;
    var w := [c.sub, "p.h"];
    SeedIsFile(c);
    NormalPair(Path(false, w));
    FindIn(c, TheSeed(c), w);
    Folders(c);
    PlacesKnown(c);
    TwoDown(Extended(c), c.at, c.sub, "p.h");
    assert c.at + [c.sub] == Place(c, []) && c.at + [c.sub] + ["p.h"] == Place(c, ["p.h"]);
    assert Parent(TheSeed(c)).parts == c.dir && c.dir + w == Found(c, ["p.h"]).parts;
    PlaceTexts(c);
    assert Lines(Extended(c), TheSeed(c))[0].found == Some(Found(c, ["p.h"]));
  }

  ghost predicate ReadsOf(c: Case) {
    var lines := Lines(Extended(c), Found(c, ["p.h"]));
    && |lines| == 3
    && lines[0].found == Some(Found(c, ["u.h"]))
    && lines[1].found.Some? && IsSecond(c, lines[1].found.value)
    && lines[2].found == Some(Found(c, ["in", "q.h"]))
  }

  lemma PlaceFinds(c: Case)
    requires ValidCase(c)
    ensures ReadsOf(c)
    ensures IsFile(Extended(c), Found(c, ["in", "q.h"])) && At(Extended(c), Found(c, ["in", "q.h"])) == Place(c, ["in", "q.h"])
  {
    hide ValidCase, Extended, Find, IsFile, Place, Other, Str;
    var p := Found(c, ["p.h"]);
    SeedFinds(c);
    PlaceTexts(c);
    Folders(c);
    assert Parent(p).parts == c.dir + [c.sub];
    FindsU(c, p, []);
    assert c.dir + [c.sub] + ["u.h"] == Found(c, ["u.h"]).parts;
    FindsDeeper(c, p);
    assert c.dir + [c.sub] + ["in", "q.h"] == Found(c, ["in", "q.h"]).parts;
    SecondFound(c);
  }

  lemma SecondFound(c: Case)
    requires ValidCase(c) && IsFile(Extended(c), Found(c, ["p.h"])) && At(Extended(c), Found(c, ["p.h"])) == Place(c, ["p.h"])
    ensures Find(Extended(c), Str(Last(c)), Found(c, ["p.h"])).Some?
    ensures IsSecond(c, Find(Extended(c), Str(Last(c)), Found(c, ["p.h"])).value)
  {
    hide ValidCase, Extended, Find, IsFile, Place, Other, Str, Via, IsSecond, Normal, Joined, Walk, IsPlace;
    LastIsNormal(c);
    assert Last(c).parts[|Last(c).parts| - 1] == "u.h";
    FindIn(c, Found(c, ["p.h"]), Last(c).parts);
    FindsOther(c, Found(c, ["p.h"]), Find(Extended(c), Str(Last(c)), Found(c, ["p.h"])).value);
    SecondIs(c, Find(Extended(c), Str(Last(c)), Found(c, ["p.h"])).value);
  }

  lemma DeepFinds(c: Case)
    requires ValidCase(c)
    ensures Lines(Extended(c), Found(c, ["in", "q.h"])) == [Include("u.h", Some(Last(c)))]
  {
    hide ValidCase, Extended, Find, IsFile, Place, Other, Str;
    var q := Found(c, ["in", "q.h"]);
    PlaceFinds(c);
    PlaceTexts(c);
    Folders(c);
    assert Parent(q).parts == c.dir + [c.sub] + ["in"];
    FindsU(c, q, ["in"]);
    assert c.dir + [c.sub] + ["in"] + ["u.h"] == Last(c).parts;
  }

  lemma DeepReachable(c: Case, seeds: seq<Seed>)
    requires ValidCase(c) && IsSeed(seeds, TheSeed(c))
    ensures Reachable(Extended(c), seeds, Found(c, ["in", "q.h"]))
  {
    hide ValidCase, Extended, IsFile, Reachable, IsSeed, Lines, Found;
    SeedReachable(Extended(c), seeds, TheSeed(c));
    SeedFinds(c);
    IncludedReachable(Extended(c), seeds, TheSeed(c), Found(c, ["p.h"]));
    PlaceFinds(c);
    assert Lines(Extended(c), Found(c, ["p.h"]))[2].found == Some(Found(c, ["in", "q.h"]));
    IncludedReachable(Extended(c), seeds, Found(c, ["p.h"]), Found(c, ["in", "q.h"]));
  }

  // ------------------------------------------------ the turn that loses an entry

  lemma {:induction false} FirstVisit(disk: Disk, seeds: seq<Seed>, p: Path, n: nat) returns (m: nat)
    requires p in Turns(disk, Begin(seeds), n).visited
    ensures m < n && p !in Turns(disk, Begin(seeds), m).visited && p in Turns(disk, Begin(seeds), m + 1).visited
  {
    hide Turn;
    if p in Turns(disk, Begin(seeds), n - 1).visited {
      m := FirstVisit(disk, seeds, p, n - 1);
    } else {
      m := n - 1;
    }
  }

  lemma VisitedByPop(disk: Disk, r: Run, p: Path)
    requires p !in r.visited && p in Turn(disk, r).visited
    ensures r.s.queue != [] && r.s.queue[0].path == p
  {
    hide Lines, IsFile, ReadAll, DepKeys;
  }

  /** A path that is no seed was found by a visited path, by a step. */
  lemma TracedStep(c: Case, seeds: seq<Seed>, r: Run, p: Path) returns (v: Path, text: string)
    requires ValidCase(c) && Traced(Extended(c), seeds, r) && p in r.s.pathToKey && !IsSeed(seeds, p)
    ensures v in r.visited && NewStep(c, v, text, p) && text in r.s.combined
  {
    hide ValidCase, Extended, IsSeed, NewStep, Lines;
    assert FoundBy(Extended(c), r, p);
    var i;
    v, i :| v in r.visited && 0 <= i < |Lines(Extended(c), v)|
      && Lines(Extended(c), v)[i].found == Some(p) && Lines(Extended(c), v)[i].text in r.s.combined;
    LinesAreSteps(c, v, i);
    text := Lines(Extended(c), v)[i].text;
  }

  lemma NewIsNoSeed(c: Case, seeds: seq<Seed>, p: Path)
    requires ClearSeeds(c, seeds) && !Clear(c, p.parts)
    ensures !IsSeed(seeds, p)
  {
    hide Clear;
  }

  lemma FoundIsNew(c: Case, parts: seq<string>, p: Path)
    requires p == Found(c, parts) || IsSecond(c, p)
    ensures !Clear(c, p.parts)
  {
    if p == Other(c) {
      assert p.parts[0] == Elsewhere(c);
    } else {
      assert p.parts[|c.dir|] == c.sub;
    }
  }

  /** When `sub/in/q.h` is read, `u.h` and the path string of `sub/in/u.h` are keys, and `sub/in/u.h` is not tracked. */
  ghost predicate AboutToLose(c: Case, s: Tables) {
    Last(c) !in s.pathToKey && "u.h" in s.combined && Str(Last(c)) in s.combined
  }

  lemma BeforeRead(c: Case, seeds: seq<Seed>, r: Run)
    requires ValidCase(c) && ClearSeeds(c, seeds) && Traced(Extended(c), seeds, r) && SoundRun(Extended(c), seeds, r)
    requires Found(c, ["in", "q.h"]) !in r.visited && Found(c, ["in", "q.h"]) in r.s.pathToKey
    ensures AboutToLose(c, r.s)
  {
    hide ValidCase, ClearSeeds, Traced, Extended, IsSeed, NewStep, Found, Sound, DepsKnown, Lines, IsSecond, Str;
    if Last(c) in r.s.pathToKey {
      FoundIsNew(c, ["in", "u.h"], Last(c));
      NewIsNoSeed(c, seeds, Last(c));
      var v, text := TracedStep(c, seeds, r, Last(c));
      FinderOfLast(c, v, text);
    }
    FoundIsNew(c, ["in", "q.h"], Found(c, ["in", "q.h"]));
    NewIsNoSeed(c, seeds, Found(c, ["in", "q.h"]));
    var v, text := TracedStep(c, seeds, r, Found(c, ["in", "q.h"]));
    FinderOfDeep(c, v, text);
    PlaceFinds(c);
    ReadTracks(c, r);
    FirstIsKey(c, seeds, r);
    SecondIsKey(c, seeds, r, Lines(Extended(c), v)[1].found.value);
  }

  lemma ReadTracks(c: Case, r: Run)
    requires Found(c, ["p.h"]) in r.visited && VisitedAreRead(Extended(c), r.s, r.visited) && ReadsOf(c)
    ensures Found(c, ["u.h"]) in r.s.pathToKey && Lines(Extended(c), Found(c, ["p.h"]))[1].found.value in r.s.pathToKey
  {
    hide Extended, Lines, Found, IsSecond;
    assert AllTracked(Lines(Extended(c), Found(c, ["p.h"])), r.s.pathToKey);
  }

  lemma FirstIsKey(c: Case, seeds: seq<Seed>, r: Run)
    requires ValidCase(c) && ClearSeeds(c, seeds) && Traced(Extended(c), seeds, r) && Found(c, ["u.h"]) in r.s.pathToKey
    ensures "u.h" in r.s.combined
  {
    hide ValidCase, ClearSeeds, Traced, Extended, IsSeed, NewStep, Found;
    FoundIsNew(c, ["u.h"], Found(c, ["u.h"]));
    NewIsNoSeed(c, seeds, Found(c, ["u.h"]));
    var v, text := TracedStep(c, seeds, r, Found(c, ["u.h"]));
    FinderOfFirst(c, v, text);
  }

  lemma SecondIsKey(c: Case, seeds: seq<Seed>, r: Run, p: Path)
    requires ValidCase(c) && ClearSeeds(c, seeds) && Traced(Extended(c), seeds, r) && IsSecond(c, p) && p in r.s.pathToKey
    requires SoundRun(Extended(c), seeds, r)
    ensures Str(Last(c)) in r.s.combined
  {
    hide ValidCase, ClearSeeds, Traced, Extended, IsSeed, NewStep, IsSecond, KeysKnown, VisitedAreRead, DepsKnown, Reachable, Plain, Last;
    FoundIsNew(c, [], p);
    NewIsNoSeed(c, seeds, p);
    var v, text := TracedStep(c, seeds, r, p);
    ReachableIsPlain(c, seeds, v);
    FinderOfSecond(c, v, text, p);
  }

  lemma ReachableIsPlain(c: Case, seeds: seq<Seed>, p: Path)
    requires ValidCase(c) && ClearSeeds(c, seeds) && Reachable(Extended(c), seeds, p)
    ensures Plain(c, p)
  {
    hide ValidCase, ClearSeeds, Extended, IsRoute, Plain;
    var route :| IsRoute(Extended(c), seeds, route, p);
    RouteIsPlain(c, seeds, route, p);
  }

  /** The path string becomes the key of the second file as well: the first one's entry is gone. */
  lemma TrackLoses(c: Case, seeds: seq<Seed>, s: Tables)
    requires KeysKnown(s) && OwnKeys(seeds, s) && AboutToLose(c, s) && !IsName(seeds, Str(Last(c)))
    ensures !KeysLeadBack(TrackLine(s, Include("u.h", Some(Last(c)))))
  {
    hide Str, Last, IsName;
    var other := s.combined[Str(Last(c))];
    var s' := TrackLine(s, Include("u.h", Some(Last(c))));
    assert s' == Track(s, "u.h", Last(c));
    assert s'.pathToKey[other] == Str(Last(c)) && s'.combined[Str(Last(c))] == Last(c);
  }

  lemma TurnLoses(c: Case, seeds: seq<Seed>, r: Run)
    requires ValidCase(c) && ClearSeeds(c, seeds)
    requires SoundRun(Extended(c), seeds, r) && Traced(Extended(c), seeds, r) && OwnKeys(seeds, r.s)
    requires r.s.queue != [] && r.s.queue[0].path == Found(c, ["in", "q.h"]) && Found(c, ["in", "q.h"]) !in r.visited
    ensures !KeysLeadBack(Turn(Extended(c), r).s)
  {
    hide ValidCase, ClearSeeds, Traced, OwnKeys, Extended, KeysKnown, VisitedAreRead, DepsKnown, OnlyReachable, VisitedOrWaiting,
         IsFile, Lines, Found, Last, KeysLeadBack, TrackLine, AboutToLose, IsName, Popped, DepKeys, IsSeed;
    PopKeepsKeys(r.s);
    BeforeRead(c, seeds, r);
    PlaceFinds(c);
    DeepFinds(c);
    LastIsNoName(c, seeds);
    SameTables(c, seeds, r.s);
    TrackLoses(c, seeds, Popped(r.s));
    var line := Include("u.h", Some(Last(c)));
    assert [line][..0] == [];
    assert ReadAll(Popped(r.s), [line]) == TrackLine(Popped(r.s), line);
  }

  lemma SameTables(c: Case, seeds: seq<Seed>, s: Tables)
    requires s.queue != [] && OwnKeys(seeds, s) && AboutToLose(c, s)
    ensures OwnKeys(seeds, Popped(s)) && AboutToLose(c, Popped(s))
  {
    hide IsName, Last, Str;
  }

  lemma LastIsNoName(c: Case, seeds: seq<Seed>)
    requires ClearSeeds(c, seeds)
    ensures !IsName(seeds, Str(Last(c)))
  {
    hide Str, Last, Clear;
  }

  /** The walk over the extended disk loses an entry. */
  lemma EntryLost(c: Case, seeds: seq<Seed>) returns (n: nat)
    requires ValidCase(c) && ClearSeeds(c, seeds) && IsSeed(seeds, TheSeed(c))
    ensures !KeysLeadBack(Turns(Extended(c), Begin(seeds), n).s)
  {
    hide ValidCase, ClearSeeds, Traced, OwnKeys, Extended, SoundRun, IsSeed, KeysLeadBack, Begin, Turn, Found, Reachable;
    NoCycle(c, seeds);
    var last :| Turns(Extended(c), Begin(seeds), last).s.queue == [];
    EndTracksReachable(Extended(c), seeds, last);
    DeepReachable(c, seeds);
    var m := FirstVisit(Extended(c), seeds, Found(c, ["in", "q.h"]), last);
    var r := Turns(Extended(c), Begin(seeds), m);
    VisitedByPop(Extended(c), r, Found(c, ["in", "q.h"]));
    TurnsKeep(Extended(c), seeds, m);
    TurnsTrace(Extended(c), seeds, m);
    TurnLoses(c, seeds, r);
    n := m + 1;
  }

  // ------------------------------------------------ when keys lead back

  /** More files, other include lines, and the index over any include roots; the same seeds are files. */
  ghost predicate Around(disk0: Disk, disk: Disk, seeds: seq<Seed>) {
    && ValidDisk(disk) && Built(disk) && disk.cwd == disk0.cwd && disk0.dirs <= disk.dirs && disk0.files <= disk.files
    && forall i :: 0 <= i < |seeds| ==> (IsFile(disk, seeds[i].path) <==> IsFile(disk0, seeds[i].path))
  }

  ghost predicate AlwaysLeadBack(disk0: Disk, seeds: seq<Seed>) {
    forall disk, n: nat :: Around(disk0, disk, seeds) ==> KeysLeadBack(Turns(disk, Begin(seeds), n).s)
  }

  ghost function Components(disk: Disk, seeds: seq<Seed>): set<string> {
    (set i | 0 <= i < |disk.cwd| :: disk.cwd[i])
    + (set l, i | l in disk.dirs && 0 <= i < |l| :: l[i])
    + (set l, i | l in disk.files && 0 <= i < |l| :: l[i])
    + (set j, i | 0 <= j < |seeds| && 0 <= i < |seeds[j].path.parts| :: seeds[j].path.parts[i])
    + (set j | 0 <= j < |seeds| :: seeds[j].name)
  }

  function Esses(n: nat): string {
    if n == 0 then "" else "s" + Esses(n - 1)
  }

  lemma {:induction false} EssesAre(n: nat)
    ensures |Esses(n)| == n && forall i :: 0 <= i < n ==> Esses(n)[i] == 's'
  {
    if n > 0 { EssesAre(n - 1); }
  }

  lemma {:induction false} LongestWord(words: set<string>) returns (n: nat)
    ensures forall w :: w in words ==> |w| <= n
  {
    n := 0;
    if words != {} {
      var w :| w in words;
      n := LongestWord(words - {w});
      if n < |w| { n := |w|; }
    }
  }

  lemma {:induction false} JoinedIsLong(parts: seq<string>, i: nat)
    requires i < |parts|
    ensures |Joined(parts)| >= |parts[i]|
  {
    if |parts| > 1 {
      if i > 0 { JoinedIsLong(parts[1..], i - 1); }
    }
  }

  /** The case of a seed file under a relative path, with a name that is longer than everything. */
  function CaseOf(disk: Disk, p: Path, sub: string): Case
    requires IsFile(disk, p)
  {
    Case(disk, Parent(p).parts, p.parts[|p.parts| - 1], At(disk, p)[..|At(disk, p)| - 1], sub)
  }

  ghost predicate Longer(disk: Disk, seeds: seq<Seed>, sub: string) {
    forall w :: w in Components(disk, seeds) ==> |w| < |sub|
  }

  lemma LongIsClear(c: Case, parts: seq<string>)
    requires forall i :: 0 <= i < |parts| ==> |parts[i]| < |c.sub|
    ensures Clear(c, parts)
  {
  }

  lemma LongIsClearDisk(c: Case, seeds: seq<Seed>)
    requires Longer(c.disk, seeds, c.sub)
    ensures ClearDisk(c)
  {
    hide Clear;
    LongIsClear(c, c.disk.cwd);
    forall l | l in c.disk.dirs || l in c.disk.files ensures Clear(c, l) {
      assert forall i :: 0 <= i < |l| ==> l[i] in Components(c.disk, seeds);
      LongIsClear(c, l);
    }
  }

  lemma LongIsClearSeeds(c: Case, seeds: seq<Seed>)
    requires Longer(c.disk, seeds, c.sub)
    ensures ClearSeeds(c, seeds)
  {
    hide Clear;
    assert Last(c).parts[|c.dir|] == c.sub;
    JoinedIsLong(Last(c).parts, |c.dir|);
    forall j | 0 <= j < |seeds| ensures Clear(c, seeds[j].path.parts) && seeds[j].name != Str(Last(c)) {
      assert forall i :: 0 <= i < |seeds[j].path.parts| ==> seeds[j].path.parts[i] in Components(c.disk, seeds);
      LongIsClear(c, seeds[j].path.parts);
      assert seeds[j].name in Components(c.disk, seeds);
    }
  }

  lemma CaseIsValid(disk: Disk, seeds: seq<Seed>, i: nat, sub: string) returns (c: Case)
    requires ValidDisk(disk) && NormalSeeds(seeds) && i < |seeds| && IsFile(disk, seeds[i].path) && !seeds[i].path.absolute
    requires Longer(disk, seeds, sub) && Component(sub) && sub != ".." && sub != "in"
    ensures c.disk == disk && TheSeed(c) == seeds[i].path && ValidCase(c) && ClearSeeds(c, seeds)
  {
    hide ValidIndex, Clear, ClearDisk, ClearSeeds, Longer, Normal;
    var p := seeds[i].path;
    c := CaseOf(disk, p, sub);
    LongIsClearDisk(c, seeds);
    LongIsClearSeeds(c, seeds);
    assert p.parts == c.dir + [c.name];
    assert At(disk, p) == c.at + [c.name];
    assert Clear(c, c.dir) by {
      SeedIsClear(c, seeds, i);
      ClearPrefix(c, p.parts, |p.parts| - 1);
    }
  }

  lemma SeedIsClear(c: Case, seeds: seq<Seed>, i: nat)
    requires ClearSeeds(c, seeds) && i < |seeds|
    ensures Clear(c, seeds[i].path.parts)
  {
    hide Clear;
  }

  lemma ClearPrefix(c: Case, parts: seq<string>, n: nat)
    requires Clear(c, parts) && n <= |parts|
    ensures Clear(c, parts[..n])
  {
  }

  /** The index of the extended disk is that of one include root, which holds one file. */
  lemma ExtendedIsBuilt(c: Case)
    requires ValidCase(c)
    ensures Built(Extended(c))
  {
    hide ValidDisk, Normal, ClearDisk, IsFile, Below;
    var root, rel := [Elsewhere(c)], ["u.h"];
    OnlyOther(c);
    assert Listing(Extended(c), root, [rel]);
    RootIsPlain(c);
    OneEntry(c);
    assert BuiltFrom(Extended(c), [root], [[rel]]);
  }

  lemma RootIsPlain(c: Case)
    requires Component(c.sub)
    ensures Canonical([Elsewhere(c)])
  {
    ElsewhereIsComponent(c);
  }

  lemma OneEntry(c: Case)
    ensures IndexOf([[Elsewhere(c)]], [[["u.h"]]]) == Entries(Extended(c).byRel, Extended(c).byName)
  {
    OneText("u.h");
    var none := Entries(map[], map[]);
    var root: Location, rel := [Elsewhere(c)], ["u.h"];
    assert [root][..0] == [] && [[rel]][..0] == [] && [rel][..0] == [];
    assert EnterAll(none, root, []) == none;
    assert EnterAll(none, root, [rel]) == Enter(none, root, rel);
    assert IndexOf([root][..0], [[rel]][..0]) == none;
    assert IndexOf([root], [[rel]]) == Enter(none, root, rel);
    var f := Path(true, root + rel);
    assert root + rel == Other(c).parts && f == Other(c) && [] + [f] == [f];
    var entered := Enter(none, root, rel);
    assert entered.byRel == map["u.h" := f] && entered.byName == map["u.h" := [f]];
  }

  /** Below that root there is only the one file. */
  lemma OnlyOther(c: Case)
    requires ValidCase(c)
    ensures forall rel :: Below(Extended(c), [Elsewhere(c)], rel) <==> rel == ["u.h"]
  {
    hide ValidCase, Normal, Extended, Walk, Place, IsFile;
    OneText("u.h");
    OtherIsFile(c);
    assert [Elsewhere(c)] + ["u.h"] == Other(c).parts && "u.h"[1..] == ".h";
    assert Below(Extended(c), [Elsewhere(c)], ["u.h"]);
    forall rel | Below(Extended(c), [Elsewhere(c)], rel) ensures rel == ["u.h"] {
      BelowIsOther(c, rel);
    }
  }

  lemma BelowIsOther(c: Case, rel: seq<string>)
    requires ValidCase(c) && Below(Extended(c), [Elsewhere(c)], rel)
    ensures rel == ["u.h"]
  {
    hide ValidDisk, Normal, Clear, Walk, Place;
    var l := [Elsewhere(c)] + rel;
    RootIsPlain(c);
    WalkPlain(Extended(c), [], l);
    assert [] + l == l && l in Extended(c).files;
    assert l[0] == Elsewhere(c);
    NotBelow(c, l);
    assert l[1..] == rel && Other(c).parts[1..] == ["u.h"];
  }

  lemma NotBelow(c: Case, l: Location)
    requires ValidCase(c) && l != [] && l[0] == Elsewhere(c) && l in Extended(c).files
    ensures l == Other(c).parts
  {
    hide ValidDisk, Normal;
    ElsewhereIsComponent(c);
    AtIsClear(c);
    assert forall parts :: Place(c, parts)[0] == if c.at == [] then c.sub else c.at[0];
  }

  lemma ExtendedIsAround(c: Case, seeds: seq<Seed>)
    requires ValidCase(c) && ClearSeeds(c, seeds)
    ensures Around(c.disk, Extended(c), seeds)
  {
    hide ValidCase, IsFile, ValidDisk, Clear, Place, Other, Built;
    ExtendedIsValid(c);
    ExtendedIsBuilt(c);
    forall i | 0 <= i < |seeds| ensures IsFile(Extended(c), seeds[i].path) <==> IsFile(c.disk, seeds[i].path) {
      SameFile(c, seeds[i].path);
    }
  }

  lemma RelativeSeedLoses(disk: Disk, seeds: seq<Seed>, i: nat)
    requires ValidDisk(disk) && NormalSeeds(seeds) && i < |seeds| && IsFile(disk, seeds[i].path) && !seeds[i].path.absolute
    ensures !AlwaysLeadBack(disk, seeds)
  {
    hide ValidDisk, NormalSeeds, IsFile, Components, Extended, Around, KeysLeadBack, ValidCase, ClearSeeds, TheSeed, Turns, Begin;
    var n := LongestWord(Components(disk, seeds));
    EssesAre(n + 3);
    var c := CaseIsValid(disk, seeds, i, Esses(n + 3));
    assert IsSeed(seeds, TheSeed(c));
    ExtendedIsAround(c, seeds);
    var m := EntryLost(c, seeds);
  }

  /** Whatever other files there are and whatever the files include, every tracked file keeps its own key exactly if
      the seeds that are files are given by absolute paths. */
  lemma KeysLeadBackIff(disk: Disk, seeds: seq<Seed>)
    requires ValidDisk(disk) && DistinctNames(seeds) && RelativeNames(seeds) && NormalSeeds(seeds)
    ensures AlwaysLeadBack(disk, seeds) <==> AbsoluteSeeds(disk, seeds)
  {
    hide ValidDisk, DistinctNames, RelativeNames, NormalSeeds, IsFile, KeysLeadBack, Turns, Begin;
    if AbsoluteSeeds(disk, seeds) {
      forall around, n: nat | Around(disk, around, seeds) ensures KeysLeadBack(Turns(around, Begin(seeds), n).s) {
        assert AbsoluteSeeds(around, seeds);
        IndexIsValid(around);
        AbsoluteSeedsLeadBack(around, seeds, n);
      }
    } else {
      var i :| 0 <= i < |seeds| && IsFile(disk, seeds[i].path) && !seeds[i].path.absolute;
      RelativeSeedLoses(disk, seeds, i);
    }
  }

  // ------------------------------------------------ one such walk

  const MAIN: Case := Case(Disk(["w"], {[], ["w"]}, {["w", "main.c"]}, map[], map[], map[]), [], "main.c", ["w"], "lib")

  const MAIN_SEED: seq<Seed> := [Seed("main.c", Path(false, ["main.c"]))]

  /** `main.c`, given by its relative path, includes `lib/p.h`; that includes `u.h`, `lib/in/u.h` and `in/q.h`, and `in/q.h`
      includes `u.h`. The index knows another file `u.h`. */
  lemma MainLosesAnEntry() returns (n: nat)
    ensures IsFile(Extended(MAIN), MAIN_SEED[0].path) && ValidDisk(Extended(MAIN)) && Built(Extended(MAIN))
    ensures Extended(MAIN).lines == map[["w", "main.c"] := ["lib/p.h"], ["w", "lib", "p.h"] := ["u.h", "lib/in/u.h", "in/q.h"],
                                        ["w", "lib", "in", "q.h"] := ["u.h"]]
    ensures !KeysLeadBack(Turns(Extended(MAIN), Begin(MAIN_SEED), n).s)
  {
    hide Turns, Begin, KeysLeadBack, ValidCase, Extended, Built;
    MainIsValid();
    MainLines();
    SeedIsFile(MAIN);
    ExtendedIsValid(MAIN);
    ExtendedIsBuilt(MAIN);
    assert [] + ["main.c"] == ["main.c"];
    assert MAIN_SEED[0].path == TheSeed(MAIN);
    n := EntryLost(MAIN, MAIN_SEED);
  }

  lemma MainIsValid()
    ensures ValidCase(MAIN) && ClearSeeds(MAIN, MAIN_SEED)
  {
    assert MAIN.disk.cwd + ["main.c"] == ["w", "main.c"];
    assert Last(MAIN).parts == ["lib", "in", "u.h"];
  }

  lemma MainLines()
    ensures Extended(MAIN).lines == map[["w", "main.c"] := ["lib/p.h"], ["w", "lib", "p.h"] := ["u.h", "lib/in/u.h", "in/q.h"],
                                        ["w", "lib", "in", "q.h"] := ["u.h"]]
  {
    assert Joined(["lib", "p.h"]) == "lib/p.h" by { JoinedPair("lib", "p.h"); }
    assert Joined(["in", "q.h"]) == "in/q.h" by { JoinedPair("in", "q.h"); }
    assert Joined(["lib", "in", "u.h"]) == "lib/in/u.h" by {
      JoinedPair("in", "u.h");
      assert ["lib", "in", "u.h"][1..] == ["in", "u.h"];
    }
    assert Last(MAIN).parts == ["lib", "in", "u.h"];
    assert ["w"] + ["main.c"] == ["w", "main.c"];
    assert Place(MAIN, ["p.h"]) == ["w", "lib", "p.h"] && Place(MAIN, ["in", "q.h"]) == ["w", "lib", "in", "q.h"];
  }

  lemma JoinedPair(x: string, y: string)
    ensures Joined([x, y]) == x + "/" + y
  {
    assert [x, y][1..] == [y];
  }
}
