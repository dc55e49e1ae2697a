/** `IncludeIndex.find`: paths as `pathlib` joins them, and what they denote on a disk. */
module IncludePaths {
  import opened Wrappers
  import opened Splitting

  // ------------------------------------------------ paths

  /** A `pathlib` path: no empty and no `.` components, but `..` is kept. */
  datatype Path = Path(absolute: bool, parts: seq<string>)

  /** `pathlib` drops empty and `.` components. */
  function Kept(parts: seq<string>): seq<string> {
    if parts == [] then []
    else (if parts[0] == "" || parts[0] == "." then [] else [parts[0]]) + Kept(parts[1..])
  }

  /** `Path(text)` */
  function Parse(text: string): Path {
    Path(text != "" && text[0] == '/', Kept(Split(text, '/')))
  }

  function Joined(parts: seq<string>): string {
    if parts == [] then "" else if |parts| == 1 then parts[0] else parts[0] + "/" + Joined(parts[1..])
  }

  /** `str(path)` */
  function Str(p: Path): string {
    if p.absolute then "/" + Joined(p.parts) else if p.parts == [] then "." else Joined(p.parts)
  }

  predicate Component(part: string) {
    part != "" && part != "." && '/' !in part
  }

  /** What every `pathlib` path is. */
  predicate Normal(p: Path) {
    forall i :: 0 <= i < |p.parts| ==> Component(p.parts[i])
  }

  function Parent(p: Path): Path {
    if p.parts == [] then p else p.(parts := p.parts[..|p.parts| - 1])
  }

  /** `dir / text` */
  function Join(dir: Path, text: string): Path {
    var t := Parse(text);
    if t.absolute then t else Path(dir.absolute, dir.parts + t.parts)
  }

  lemma {:induction false} SplitJoined(parts: seq<string>)
    requires parts != [] && forall i :: 0 <= i < |parts| ==> Component(parts[i])
    ensures Split(Joined(parts), '/') == parts && Kept(parts) == parts
    ensures Joined(parts) != "" && Joined(parts)[0] != '/' && Joined(parts) != "."
  {
    SplitFirst(parts[0], '/', Joined(parts[1..]));
    assert parts == [parts[0]] + parts[1..];
    if |parts| > 1 {
      SplitJoined(parts[1..]);
      assert Joined(parts)[|parts[0]|] == '/';
    } else {
      assert parts[1..] == [] && Kept(parts[1..]) == [];
    }
  }

  /** A path spelled out reads back as itself. */
  lemma ParseStr(p: Path)
    requires Normal(p)
    ensures Parse(Str(p)) == p
  {
    if p.parts == [] {
      assert Split("", '/') == [""] && Kept([""]) == Kept([""][1..]) == [];
      assert Split("/", '/') == [""] + Split("", '/') == ["", ""];
      assert ["", ""][1..] == [""];
      assert Kept(["", ""]) == [];
      assert Split(".", '/') == ["."] by { SplitFirst(".", '/', ""); }
      assert Kept(["."]) == Kept(["."][1..]) == [];
    } else {
      SplitJoined(p.parts);
      if p.absolute {
        assert Str(p)[1..] == Joined(p.parts);
        assert Split(Str(p), '/') == [""] + p.parts;
        assert ([""] + p.parts)[1..] == p.parts;
      }
    }
  }

  lemma StrInjective(p: Path, q: Path)
    requires Normal(p) && Normal(q) && Str(p) == Str(q)
    ensures p == q
  {
    ParseStr(p);
    ParseStr(q);
  }

  lemma {:induction false} KeptAreComponents(parts: seq<string>)
    requires forall i :: 0 <= i < |parts| ==> '/' !in parts[i]
    ensures forall i :: 0 <= i < |Kept(parts)| ==> Component(Kept(parts)[i])
  {
    if parts != [] {
      KeptAreComponents(parts[1..]);
    }
  }

  lemma ParseNormal(text: string)
    ensures Normal(Parse(text))
  {
    PartsHaveNoSeparator(text, '/');
    KeptAreComponents(Split(text, '/'));
  }

  // ------------------------------------------------ the disk

  /** A place on the disk, from the root, without `..`; there are no symbolic links. */
  type Location = seq<string>

  /** `cwd` is where relative paths start; `lines` are the include texts of the files; `byRel` and `byName` are
      the tables of the index over the include roots. */
  datatype Disk = Disk(cwd: Location, dirs: set<Location>, files: set<Location>, lines: map<Location, seq<string>>,
                       byRel: map<string, Path>, byName: map<string, seq<Path>>)

  /** Where the system gets to from `at`, component by component: each one but the last has to be a directory. */
  function Walk(disk: Disk, at: Location, parts: seq<string>): Option<Location> {
    if parts == [] then Some(at)
    else
      var dir := Walk(disk, at, parts[..|parts| - 1]);
      var last := parts[|parts| - 1];
      if dir.None? || dir.value !in disk.dirs then None
      else if last == ".." then Some(if dir.value == [] then [] else dir.value[..|dir.value| - 1])
      else Some(dir.value + [last])
  }

  function Locate(disk: Disk, p: Path): Option<Location> {
    Walk(disk, if p.absolute then [] else disk.cwd, p.parts)
  }

  /** A path that does not end in `..`, which always names a directory. */
  predicate CanNameFile(p: Path) {
    p.parts != [] && p.parts[|p.parts| - 1] != ".."
  }

  predicate IsFile(disk: Disk, p: Path) {
    CanNameFile(p) && Locate(disk, p).Some? && Locate(disk, p).value in disk.files
  }

  /** The place of a file. */
  function At(disk: Disk, p: Path): (l: Location)
    requires IsFile(disk, p)
    ensures l != [] && l in disk.files
    ensures l[|l| - 1] == p.parts[|p.parts| - 1] && Locate(disk, Parent(p)) == Some(l[..|l| - 1])
  {
    assert Parent(p).parts == p.parts[..|p.parts| - 1];
    Locate(disk, p).value
  }

  function TextsAt(disk: Disk, l: Location): seq<string> {
    if l in disk.lines then disk.lines[l] else []
  }

  lemma {:induction false} WalkConcat(disk: Disk, at: Location, a: seq<string>, b: seq<string>)
    ensures Walk(disk, at, a + b) == if Walk(disk, at, a).None? then None else Walk(disk, Walk(disk, at, a).value, b)
  {
    if b == [] {
      assert a + b == a;
    } else {
      var n := |b| - 1;
      assert (a + b)[..|a + b| - 1] == a + b[..n];
      WalkConcat(disk, at, a, b[..n]);
    }
  }

  /** Into a directory and up again leads back, and the root is its own parent. */
  lemma {:induction false} UpAgain(disk: Disk, at: Location, name: string)
    requires at in disk.dirs && at + [name] in disk.dirs && name != ".."
    ensures Walk(disk, at, [name, ".."]) == Some(at)
    ensures [] in disk.dirs ==> Walk(disk, [], [".."]) == Some([])
  {
    assert [name, ".."][..1] == [name];
    assert Walk(disk, at, [name]) == Some(at + [name]) by {
      assert [name][..0] == [];
    }
    assert (at + [name])[..|at|] == at;
    assert [".."][..0] == [];
  }

  // ------------------------------------------------ find

  /** `Path(text).name` */
  function BaseName(text: string): string {
    var parts := Parse(text).parts;
    if parts == [] then "" else parts[|parts| - 1]
  }

  predicate EndsWith(s: string, end: string) {
    |end| <= |s| && s[|s| - |end|..] == end
  }

  /** The first of `hits` that ends with the include text. */
  function FirstEnding(hits: seq<Path>, text: string): Option<Path> {
    if hits == [] then None else if EndsWith(Str(hits[0]), text) then Some(hits[0]) else FirstEnding(hits[1..], text)
  }

  function Hits(disk: Disk, text: string): seq<Path> {
    if BaseName(text) in disk.byName then disk.byName[BaseName(text)] else []
  }

  /** Rule 3: by file name. */
  function ByName(disk: Disk, text: string): Option<Path> {
    var hits := Hits(disk, text);
    if |hits| == 1 then Some(hits[0])
    else
      var first := FirstEnding(hits, text);
      if first.Some? then first else if hits != [] then Some(hits[0]) else None
  }

  /** `IncludeIndex.find` */
  function Find(disk: Disk, text: string, from: Path): Option<Path> {
    var candidate := Join(Parent(from), text);
    if IsFile(disk, candidate) then Some(candidate)
    else if text in disk.byRel then Some(disk.byRel[text])
    else ByName(disk, text)
  }

  /** What the index holds: absolute paths of files, as the include roots are resolved. */
  predicate Indexed(disk: Disk, p: Path) {
    p.absolute && Normal(p) && IsFile(disk, p)
  }

  ghost predicate ValidIndex(disk: Disk) {
    && (forall text :: text in disk.byRel ==> Indexed(disk, disk.byRel[text]))
    && (forall name, i :: name in disk.byName && 0 <= i < |disk.byName[name]| ==> Indexed(disk, disk.byName[name][i]))
  }

  /** No place is a file and a directory; the root is a directory. */
  ghost predicate ValidDisk(disk: Disk) {
    ValidIndex(disk) && disk.files !! disk.dirs && [] in disk.dirs
  }

  lemma {:induction false} FirstEndingIn(hits: seq<Path>, text: string)
    ensures FirstEnding(hits, text).Some? ==> exists i :: 0 <= i < |hits| && hits[i] == FirstEnding(hits, text).value
  {
    if hits != [] && !EndsWith(Str(hits[0]), text) {
      FirstEndingIn(hits[1..], text);
      if FirstEnding(hits[1..], text).Some? {
        var i :| 0 <= i < |hits| - 1 && hits[1..][i] == FirstEnding(hits, text).value;
        assert hits[i + 1] == FirstEnding(hits, text).value;
      }
    }
  }

  /** A file found in the index. */
  ghost predicate FromIndex(disk: Disk, p: Path) {
    || (exists text :: text in disk.byRel && disk.byRel[text] == p)
    || (exists name, i :: name in disk.byName && 0 <= i < |disk.byName[name]| && disk.byName[name][i] == p)
  }

  /** `find` joins the text to the directory, or answers from the index. */
  lemma FindJoinsOrIndexes(disk: Disk, text: string, from: Path)
    ensures var found := Find(disk, text, from);
      found.Some? ==> (found.value == Join(Parent(from), text) && IsFile(disk, found.value)) || FromIndex(disk, found.value)
  {
    hide IsFile, Join, EndsWith;
    var hits := Hits(disk, text);
    FirstEndingIn(hits, text);
    assert hits != [] ==> BaseName(text) in disk.byName && disk.byName[BaseName(text)][0] == hits[0];
    var first := FirstEnding(hits, text);
    if first.Some? {
      var i :| 0 <= i < |hits| && hits[i] == first.value;
      assert disk.byName[BaseName(text)][i] == first.value;
    }
  }

  lemma FoundIsFile(disk: Disk, text: string, from: Path)
    requires ValidIndex(disk) && Find(disk, text, from).Some?
    ensures IsFile(disk, Find(disk, text, from).value)
    ensures from.absolute ==> Find(disk, text, from).value.absolute
    ensures Normal(from) ==> Normal(Find(disk, text, from).value)
  {
    hide IsFile, Find, Parse;
    FindJoinsOrIndexes(disk, text, from);
    ParseNormal(text);
  }

  /** An include text that spells the absolute path of a file finds that file, from wherever it is included. */
  lemma SpelledPathIsFound(disk: Disk, p: Path, from: Path)
    requires p.absolute && Normal(p) && IsFile(disk, p)
    ensures Find(disk, Str(p), from) == Some(p)
  {
    ParseStr(p);
  }
}
