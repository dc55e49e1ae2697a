/** `IncludeIndex.__init__`: the tables over the include roots. */
module IncludeIndex {
  import opened IncludePaths

  datatype Entries = Entries(byRel: map<string, Path>, byName: map<string, seq<Path>>)

  /** `f.suffix in {".c", ".h"}` */
  predicate IsSource(name: string) {
    |name| > 2 && name[|name| - 2..] in {".c", ".h"}
  }

  /** Source files have a name before the suffix. */
  lemma SourceIff(name: string)
    ensures IsSource(name) <==> exists stem :: stem != "" && (name == stem + ".c" || name == stem + ".h")
  {
    if IsSource(name) {
      var stem := name[..|name| - 2];
      assert stem != "" && name == stem + name[|name| - 2..];
    }
    forall stem | stem != "" && (name == stem + ".c" || name == stem + ".h") ensures IsSource(name) {
      assert name[|stem|..] == ".c" || name[|stem|..] == ".h";
    }
  }

  /** Places are spelled without `..`, as roots are resolved. */
  predicate Canonical(parts: seq<string>) {
    Normal(Path(false, parts)) && ".." !in parts
  }

  /** `rel` is the relative path of a source file below `root`. */
  predicate Below(disk: Disk, root: Location, rel: seq<string>) {
    rel != [] && Canonical(rel) && IsSource(rel[|rel| - 1]) && IsFile(disk, Path(true, root + rel))
  }

  /** `rglob("*")` with the two tests: the source files below `root`, each once, in any order. */
  ghost predicate Listing(disk: Disk, root: Location, rels: seq<seq<string>>) {
    && (forall i :: 0 <= i < |rels| ==> Below(disk, root, rels[i]))
    && (forall rel :: Below(disk, root, rel) ==> rel in rels)
    && (forall i, j :: 0 <= i < j < |rels| ==> rels[i] != rels[j])
  }

  /** One file: appended under its name; its relative path keeps the file of an earlier root. */
  function Enter(t: Entries, root: Location, rel: seq<string>): Entries {
    if rel == [] then t
    else
      var f, name := Path(true, root + rel), rel[|rel| - 1];
      Entries(if Joined(rel) in t.byRel then t.byRel else t.byRel[Joined(rel) := f],
              t.byName[name := (if name in t.byName then t.byName[name] else []) + [f]])
  }

  function EnterAll(t: Entries, root: Location, rels: seq<seq<string>>): Entries {
    if rels == [] then t else Enter(EnterAll(t, root, rels[..|rels| - 1]), root, rels[|rels| - 1])
  }

  function IndexOf(roots: seq<Location>, listings: seq<seq<seq<string>>>): Entries
    requires |listings| == |roots|
  {
    if roots == [] then Entries(map[], map[])
    else
      var n := |roots| - 1;
      EnterAll(IndexOf(roots[..n], listings[..n]), roots[n], listings[n])
  }

  /** The inner loop: the files of one root. */
  method EnterRoot(t: Entries, root: Location, rels: seq<seq<string>>)
    returns (byRel: map<string, Path>, byName: map<string, seq<Path>>)
    requires forall i :: 0 <= i < |rels| ==> rels[i] != []
    ensures Entries(byRel, byName) == EnterAll(t, root, rels)
  {
    hide Joined;
    byRel, byName := t.byRel, t.byName;
    for i := 0 to |rels|
      invariant Entries(byRel, byName) == EnterAll(t, root, rels[..i])
    {
      assert rels[..i + 1][..i] == rels[..i];
      var rel := rels[i];
      var f, name := Path(true, root + rel), rel[|rel| - 1];
      byName := byName[name := (if name in byName then byName[name] else []) + [f]];
      if Joined(rel) !in byRel {
        byRel := byRel[Joined(rel) := f];
      }
    }
    assert rels[..|rels|] == rels;
  }

  /** The loop over the roots. */
  method BuildIndex(roots: seq<Location>, listings: seq<seq<seq<string>>>)
    returns (byRel: map<string, Path>, byName: map<string, seq<Path>>)
    requires |listings| == |roots| && forall k, i :: 0 <= k < |roots| && 0 <= i < |listings[k]| ==> listings[k][i] != []
    ensures Entries(byRel, byName) == IndexOf(roots, listings)
  {
    hide EnterAll;
    byRel, byName := map[], map[];
    for k := 0 to |roots|
      invariant Entries(byRel, byName) == IndexOf(roots[..k], listings[..k])
    {
      assert roots[..k + 1][..k] == roots[..k] && listings[..k + 1][..k] == listings[..k];
      byRel, byName := EnterRoot(Entries(byRel, byName), roots[k], listings[k]);
    }
    assert roots[..|roots|] == roots && listings[..|roots|] == listings;
  }

  ghost predicate BuiltFrom(disk: Disk, roots: seq<Location>, listings: seq<seq<seq<string>>>) {
    && |listings| == |roots|
    && (forall k :: 0 <= k < |roots| ==> Canonical(roots[k]) && Listing(disk, roots[k], listings[k]))
    && Entries(disk.byRel, disk.byName) == IndexOf(roots, listings)
  }

  /** The index of the disk is one that the constructor builds. */
  ghost predicate Built(disk: Disk) {
    exists roots, listings :: BuiltFrom(disk, roots, listings)
  }

  // ------------------------------------------------ built indexes are valid

  ghost predicate HoldsFiles(disk: Disk, t: Entries) {
    && (forall text :: text in t.byRel ==> Indexed(disk, t.byRel[text]))
    && (forall name, i :: name in t.byName && 0 <= i < |t.byName[name]| ==> Indexed(disk, t.byName[name][i]))
  }

  lemma EnterHolds(disk: Disk, t: Entries, root: Location, rel: seq<string>)
    requires HoldsFiles(disk, t) && Canonical(root) && Below(disk, root, rel)
    ensures HoldsFiles(disk, Enter(t, root, rel))
  {
    hide IsFile, Joined;
    var f := Path(true, root + rel);
    assert Indexed(disk, f) by {
      forall i | 0 <= i < |f.parts| ensures Component(f.parts[i]) {
        assert f.parts[i] == if i < |root| then root[i] else rel[i - |root|];
        assert i < |root| ==> Path(false, root).parts[i] == root[i];
      }
    }
  }

  lemma {:induction false} EnterAllHolds(disk: Disk, t: Entries, root: Location, rels: seq<seq<string>>)
    requires HoldsFiles(disk, t) && Canonical(root) && forall i :: 0 <= i < |rels| ==> Below(disk, root, rels[i])
    ensures HoldsFiles(disk, EnterAll(t, root, rels))
  {
    hide HoldsFiles, Enter, Below, Canonical;
    if rels != [] {
      EnterAllHolds(disk, t, root, rels[..|rels| - 1]);
      EnterHolds(disk, EnterAll(t, root, rels[..|rels| - 1]), root, rels[|rels| - 1]);
    }
  }

  lemma {:induction false} IndexHolds(disk: Disk, roots: seq<Location>, listings: seq<seq<seq<string>>>)
    requires |listings| == |roots| && forall k :: 0 <= k < |roots| ==> Canonical(roots[k]) && Listing(disk, roots[k], listings[k])
    ensures HoldsFiles(disk, IndexOf(roots, listings))
  {
    hide Enter, Below, Canonical, Indexed;
    if roots != [] {
      var n := |roots| - 1;
      IndexHolds(disk, roots[..n], listings[..n]);
      EnterAllHolds(disk, IndexOf(roots[..n], listings[..n]), roots[n], listings[n]);
    }
  }

  /** The index holds absolute paths of files. */
  lemma BuiltIsValid(disk: Disk)
    requires Built(disk)
    ensures ValidIndex(disk)
  {
    hide Listing, Canonical, Indexed, IndexOf;
    var roots, listings :| BuiltFrom(disk, roots, listings);
    IndexHolds(disk, roots, listings);
  }

  // ------------------------------------------------ rule 2: the first root that has the file

  /** The first root below which `rel` is a source file. */
  ghost predicate FirstRoot(disk: Disk, roots: seq<Location>, rel: seq<string>, k: int) {
    0 <= k < |roots| && Below(disk, roots[k], rel) && forall j :: 0 <= j < k ==> !Below(disk, roots[j], rel)
  }

  lemma JoinedInjective(a: seq<string>, b: seq<string>)
    requires a != [] && b != [] && Canonical(a) && Canonical(b) && Joined(a) == Joined(b)
    ensures a == b
  {
    StrInjective(Path(false, a), Path(false, b));
  }

  /** What entering files below one root does to the entry of `rel`. */
  lemma {:induction false} EnterAllRel(disk: Disk, t: Entries, root: Location, rels: seq<seq<string>>, rel: seq<string>)
    requires rel != [] && Canonical(rel) && forall i :: 0 <= i < |rels| ==> Below(disk, root, rels[i])
    ensures var t' := EnterAll(t, root, rels);
      && (Joined(rel) in t.byRel ==> Joined(rel) in t'.byRel && t'.byRel[Joined(rel)] == t.byRel[Joined(rel)])
      && (Joined(rel) !in t.byRel ==> (Joined(rel) in t'.byRel <==> rel in rels))
      && (Joined(rel) !in t.byRel && rel in rels ==> t'.byRel[Joined(rel)] == Path(true, root + rel))
  {
    hide Joined, IsFile, Canonical;
    if rels != [] {
      var init, last := rels[..|rels| - 1], rels[|rels| - 1];
      EnterAllRel(disk, t, root, init, rel);
      assert rels == init + [last];
      assert Below(disk, root, last);
      if Joined(last) == Joined(rel) {
        JoinedInjective(last, rel);
      }
    }
  }

  lemma ListingIs(disk: Disk, root: Location, rels: seq<seq<string>>, rel: seq<string>)
    requires Listing(disk, root, rels)
    ensures rel in rels <==> Below(disk, root, rel)
    ensures forall i :: 0 <= i < |rels| ==> Below(disk, root, rels[i])
  {
    hide Below;
  }

  /** The table of relative paths knows `rel` exactly if some root has such a source file, and then answers with the
      first root's. */
  lemma {:induction false} FirstRootWins(disk: Disk, roots: seq<Location>, listings: seq<seq<seq<string>>>, rel: seq<string>)
    requires |listings| == |roots| && forall k :: 0 <= k < |roots| ==> Listing(disk, roots[k], listings[k])
    requires rel != [] && Canonical(rel)
    ensures var t := IndexOf(roots, listings);
      && (Joined(rel) in t.byRel <==> exists k :: FirstRoot(disk, roots, rel, k))
      && (forall k :: FirstRoot(disk, roots, rel, k) ==> t.byRel[Joined(rel)] == Path(true, roots[k] + rel))
  {
    hide Joined, Below, Canonical, Listing;
    if roots != [] {
      var n := |roots| - 1;
      var init := roots[..n];
      FirstRootWins(disk, init, listings[..n], rel);
      ListingIs(disk, roots[n], listings[n], rel);
      EnterAllRel(disk, IndexOf(init, listings[..n]), roots[n], listings[n], rel);
      FirstRootSnoc(disk, roots, rel);
    }
  }

  lemma FirstRootSnoc(disk: Disk, roots: seq<Location>, rel: seq<string>)
    requires roots != []
    ensures var n := |roots| - 1;
      && (forall k :: 0 <= k < n ==> (FirstRoot(disk, roots, rel, k) <==> FirstRoot(disk, roots[..n], rel, k)))
      && (FirstRoot(disk, roots, rel, n) <==> Below(disk, roots[n], rel) && !exists k :: FirstRoot(disk, roots[..n], rel, k))
  {
    hide Below;
    var n := |roots| - 1;
    if Below(disk, roots[n], rel) && !FirstRoot(disk, roots, rel, n) {
      var j :| 0 <= j < n && Below(disk, roots[j], rel);
      var k := Least(disk, roots[..n], rel, j);
    }
  }

  lemma {:induction false} Least(disk: Disk, roots: seq<Location>, rel: seq<string>, j: nat) returns (k: nat)
    requires j < |roots| && Below(disk, roots[j], rel)
    ensures FirstRoot(disk, roots, rel, k)
  {
    hide Below;
    k := j;
    if i :| 0 <= i < j && Below(disk, roots[i], rel) {
      k := Least(disk, roots, rel, i);
    }
  }
}
