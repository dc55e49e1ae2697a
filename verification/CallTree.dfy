/** Unfolding the cyclic call graph into trees, and searching them for paths. */
module CallTree {
  import opened Wrappers
  import opened Splitting

  datatype FunctionNode = FunctionNode(name: string, fileName: string, isExternal: bool,
                                       macroExpansion: Option<FunctionNode>, startLine: int, endLine: int)

  function UniqueId(f: FunctionNode): string {
    if f.isExternal then f.name else "[" + f.fileName + "]" + f.name
  }

  /** Functions of the project share an id exactly if they share file and name; an external function has its name as id. */
  lemma UniqueIdIs(f: FunctionNode, g: FunctionNode)
    ensures f.isExternal ==> UniqueId(f) == f.name
    ensures !f.isExternal && !g.isExternal && ']' !in f.fileName && ']' !in g.fileName ==>
      (UniqueId(f) == UniqueId(g) <==> f.fileName == g.fileName && f.name == g.name)
    ensures !f.isExternal && g.isExternal && '[' !in g.name ==> UniqueId(f) != UniqueId(g)
  {
    if !f.isExternal {
      assert UniqueId(f)[0] == '[';
    }
    if !f.isExternal && !g.isExternal && ']' !in f.fileName && ']' !in g.fileName && UniqueId(f) == UniqueId(g) {
      assert UniqueId(f)[1..] == f.fileName + [']'] + f.name && UniqueId(g)[1..] == g.fileName + [']'] + g.name;
      FirstSeparator(']', f.fileName, f.name, g.fileName, g.name);
    }
  }

  datatype CallSite = CallSite(callee: FunctionNode, line: int, callbacks: seq<FunctionNode>)

  /** `graph` maps a function id to its call sites; `registry` holds the known functions. */
  datatype Program = Program(graph: map<string, seq<CallSite>>, registry: map<string, FunctionNode>)

  datatype Tree = Tree(func: FunctionNode, line: Option<int>, callbacks: seq<FunctionNode>, children: seq<Tree>)

  /** `graph[id]` if there is one. */
  function Sites(p: Program, id: string): seq<CallSite> {
    if id in p.graph then p.graph[id] else []
  }

  /** Registered functions not yet on the path: what every recursive call has fewer of. */
  function Unvisited(p: Program, visited: set<string>): set<string> {
    p.registry.Keys - visited
  }

  // ------------------------------------------------ what unfolding builds

  function Unfold(p: Program, id: string, visited: set<string>, line: Option<int>, callbacks: seq<FunctionNode>): Tree
    decreases Unvisited(p, visited), 0, 0
  {
    if id !in p.registry then Tree(FunctionNode(id, "", true, None, -1, -1), line, callbacks, [])
    else if id in visited then Tree(p.registry[id], line, callbacks, [])
    else
      assert id in Unvisited(p, visited);
      var path := visited + {id};
      Tree(p.registry[id], line, callbacks,
           UnfoldSites(p, Sites(p, id), path) + UnfoldTargets(p, callbacks, path, line))
  }

  function UnfoldSites(p: Program, sites: seq<CallSite>, path: set<string>): seq<Tree>
    decreases Unvisited(p, path), 2, |sites|
  {
    if sites == [] then [] else UnfoldSite(p, sites[0], path) + UnfoldSites(p, sites[1..], path)
  }

  /** A macro site gets a node of its own; a site with callbacks is unfolded once for each. */
  function UnfoldSite(p: Program, site: CallSite, path: set<string>): seq<Tree>
    decreases Unvisited(p, path), 2, 0
  {
    if site.callee.macroExpansion.Some? then
      [Tree(site.callee, Some(site.line), site.callbacks,
            [Unfold(p, UniqueId(site.callee.macroExpansion.value), path, Some(site.line), [])])]
    else if site.callbacks != [] then UnfoldPerCallback(p, site, site.callbacks, path)
    else [Unfold(p, UniqueId(site.callee), path, Some(site.line), [])]
  }

  function UnfoldPerCallback(p: Program, site: CallSite, callbacks: seq<FunctionNode>, path: set<string>): seq<Tree>
    decreases Unvisited(p, path), 1, |callbacks|
  {
    if callbacks == [] then []
    else [Unfold(p, UniqueId(site.callee), path, Some(site.line), [callbacks[0]])]
         + UnfoldPerCallback(p, site, callbacks[1..], path)
  }

  function UnfoldTargets(p: Program, targets: seq<FunctionNode>, path: set<string>, line: Option<int>): seq<Tree>
    decreases Unvisited(p, path), 1, |targets|
  {
    if targets == [] then []
    else [Unfold(p, UniqueId(targets[0]), path, line, [])] + UnfoldTargets(p, targets[1..], path, line)
  }

  // ------------------------------------------------ the recursion of build_call_trees

  method BuildRecursive(p: Program, id: string, visited: set<string>, line: Option<int>, callbacks: seq<FunctionNode>)
    returns (node: Tree)
    ensures node == Unfold(p, id, visited, line, callbacks)
    decreases Unvisited(p, visited), 0
  {
    if id !in p.registry {
      return Tree(FunctionNode(id, "", true, None, -1, -1), line, callbacks, []);
    }
    if id in visited {
      return Tree(p.registry[id], line, callbacks, []);
    }
    assert id in Unvisited(p, visited);
    var path := visited + {id};
    var children := BuildSites(p, Sites(p, id), path);
    var targets := BuildTargets(p, callbacks, path, line);
    node := Tree(p.registry[id], line, callbacks, children + targets);
  }

  /** The loop over the call sites of a function. */
  method BuildSites(p: Program, sites: seq<CallSite>, path: set<string>) returns (children: seq<Tree>)
    ensures children == UnfoldSites(p, sites, path)
    decreases Unvisited(p, path), 2
  {
    children := [];
    for k := 0 to |sites|
      invariant children + UnfoldSites(p, sites[k..], path) == UnfoldSites(p, sites, path)
    {
      assert sites[k..][1..] == sites[k + 1..];
      var below := BuildSite(p, sites[k], path);
      children := children + below;
    }
    assert sites[|sites|..] == [];
  }

  lemma UnfoldTargetsFirst(p: Program, targets: seq<FunctionNode>, k: nat, path: set<string>, line: Option<int>)
    requires k < |targets|
    ensures UnfoldTargets(p, targets[k..], path, line) ==
            [Unfold(p, UniqueId(targets[k]), path, line, [])] + UnfoldTargets(p, targets[k + 1..], path, line)
  {
    assert targets[k..][1..] == targets[k + 1..];
  }

  lemma NoTargets(p: Program, path: set<string>, line: Option<int>)
    ensures UnfoldTargets(p, [], path, line) == []
  {
  }

  /** The loop over the callbacks passed along with a call. */
  method BuildTargets(p: Program, targets: seq<FunctionNode>, path: set<string>, line: Option<int>) returns (children: seq<Tree>)
    ensures children == UnfoldTargets(p, targets, path, line)
    decreases Unvisited(p, path), 1
  {
    hide UnfoldTargets, Unfold;
    children := [];
    for k := 0 to |targets|
      invariant children + UnfoldTargets(p, targets[k..], path, line) == UnfoldTargets(p, targets, path, line)
    {
      UnfoldTargetsFirst(p, targets, k, path, line);
      var child := BuildRecursive(p, UniqueId(targets[k]), path, line, []);
      children := children + [child];
    }
    assert targets[|targets|..] == [];
    NoTargets(p, path, line);
  }

  /** The children that one call site adds. */
  method BuildSite(p: Program, site: CallSite, path: set<string>) returns (below: seq<Tree>)
    ensures below == UnfoldSite(p, site, path)
    decreases Unvisited(p, path), 1
  {
    if site.callee.macroExpansion.Some? {
      var target := BuildRecursive(p, UniqueId(site.callee.macroExpansion.value), path, Some(site.line), []);
      below := [Tree(site.callee, Some(site.line), site.callbacks, [target])];
    } else if site.callbacks != [] {
      below := [];
      for k := 0 to |site.callbacks|
        invariant below + UnfoldPerCallback(p, site, site.callbacks[k..], path) == UnfoldPerCallback(p, site, site.callbacks, path)
      {
        assert site.callbacks[k..][1..] == site.callbacks[k + 1..];
        var child := BuildRecursive(p, UniqueId(site.callee), path, Some(site.line), [site.callbacks[k]]);
        below := below + [child];
      }
      assert site.callbacks[|site.callbacks|..] == [];
    } else {
      var child := BuildRecursive(p, UniqueId(site.callee), path, Some(site.line), []);
      below := [child];
    }
  }

  /** `build_call_trees`: one tree for every function that has call sites. It terminates on
      cyclic graphs. */
  method BuildCallTrees(p: Program) returns (trees: map<string, Tree>)
    ensures trees.Keys == p.graph.Keys
    ensures forall id :: id in trees ==> trees[id] == Unfold(p, id, {}, None, [])
  {
    trees := map[];
    var ids := p.graph.Keys;
    while ids != {}
      invariant ids <= p.graph.Keys && trees.Keys == p.graph.Keys - ids
      invariant forall id :: id in trees ==> trees[id] == Unfold(p, id, {}, None, [])
      decreases ids
    {
      var id :| id in ids;
      var tree := BuildRecursive(p, id, {}, None, []);
      trees := trees[id := tree];
      ids := ids - {id};
    }
  }

  // ------------------------------------------------ path search

  /** The paths that the search adds below `prefix`: it stops at the first match. */
  function PathsFrom(tree: Tree, required: string, prefix: seq<Tree>): seq<seq<Tree>> {
    if tree.func.name == required then [prefix + [tree]]
    else PathsOfChildren(tree.children, required, prefix + [tree])
  }

  function PathsOfChildren(children: seq<Tree>, required: string, prefix: seq<Tree>): seq<seq<Tree>> {
    if children == [] then []
    else PathsFrom(children[0], required, prefix) + PathsOfChildren(children[1..], required, prefix)
  }

  /** The accumulators of `dfs_for_finding_path`. */
  class PathSearch {
    var paths: seq<seq<Tree>>
    var currPath: seq<Tree>

    constructor ()
      ensures paths == [] && currPath == []
    {
      paths, currPath := [], [];
    }

    /** Appends the paths through `node`; `currPath` is restored. */
    method Dfs(node: Tree, required: string)
      modifies this
      ensures currPath == old(currPath)
      ensures paths == old(paths) + PathsFrom(node, required, old(currPath))
      decreases node
    {
      var before := currPath;
      currPath := currPath + [node];
      if node.func.name == required {
        paths := paths + [currPath];
        currPath := currPath[..|currPath| - 1];
        return;
      }
      for k := 0 to |node.children|
        invariant currPath == before + [node]
        invariant paths + PathsOfChildren(node.children[k..], required, currPath) ==
                  old(paths) + PathsOfChildren(node.children, required, currPath)
      {
        assert node.children[k..][1..] == node.children[k + 1..];
        Dfs(node.children[k], required);
      }
      assert node.children[|node.children|..] == [];
      currPath := currPath[..|currPath| - 1];
    }
  }
}
