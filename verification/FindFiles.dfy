/** The pruning walk of find_files, tools/fs/nav.go: ignored directories are skipped
    wholesale, and the walk stops once the limit is exceeded. */
module FindFiles {
  import opened Ignore

  datatype Node = File(name: string, symlink: bool) | Dir(name: string, children: seq<Node>)

  /** What the walk asks about a path; ignored answers for ancestors too. */
  datatype Query = Query(
    own: Judge,
    nameMatches: string -> bool,
    blocked: Path -> bool)

  predicate Selected(q: Query, path: Path) {
    && path != [] && q.nameMatches(path[|path| - 1])
    && !q.blocked(path)
    && !IgnoredBy(q.own, path, false)
  }

  /** Every regular file of the tree, in walk order; .git directories are not part of it. */
  function AllFiles(node: Node, path: Path): seq<Path>
    decreases node, 0
  {
    match node
    case File(_, symlink) => if symlink then [] else [path]
    case Dir(name, children) => if name == ".git" then [] else FilesIn(children, path)
  }

  function FilesIn(nodes: seq<Node>, path: Path): seq<Path>
    decreases nodes, 1
  {
    if nodes == [] then []
    else AllFiles(nodes[0], path + [nodes[0].name]) + FilesIn(nodes[1..], path)
  }

  function Filter(q: Query, files: seq<Path>): seq<Path> {
    if files == [] then []
    else (if Selected(q, files[0]) then [files[0]] else []) + Filter(q, files[1..])
  }

  lemma {:induction false} FilterConcat(q: Query, a: seq<Path>, b: seq<Path>)
    ensures Filter(q, a + b) == Filter(q, a) + Filter(q, b)
  {
    if a == [] {
      assert a + b == b;
    } else {
      assert (a + b)[1..] == a[1..] + b;
      FilterConcat(q, a[1..], b);
    }
  }

  lemma {:induction false} FilterNone(q: Query, files: seq<Path>)
    requires forall f | f in files :: !Selected(q, f)
    ensures Filter(q, files) == []
  {
    if files != [] {
      assert files[0] in files;
      FilterNone(q, files[1..]);
    }
  }

  /** Every file of a subtree lies below it. */
  lemma {:induction false} FilesBelow(node: Node, path: Path)
    ensures forall f | f in AllFiles(node, path) :: path <= f
    ensures node.Dir? ==> forall f | f in AllFiles(node, path) :: path < f
    decreases node, 0
  {
    match node
    case File(_, _) =>
    case Dir(_, children) => FilesInBelow(children, path);
  }

  lemma {:induction false} FilesInBelow(nodes: seq<Node>, path: Path)
    ensures forall f | f in FilesIn(nodes, path) :: path < f
    decreases nodes, 1
  {
    if nodes != [] {
      FilesBelow(nodes[0], path + [nodes[0].name]);
      FilesInBelow(nodes[1..], path);
    }
  }

  /** These names lead from the node to a regular file, through no .git directory. */
  ghost predicate Leads(node: Node, names: Path)
    decreases node
  {
    match node
    case File(_, symlink) => names == [] && !symlink
    case Dir(name, children) =>
      && name != ".git" && names != []
      && exists child :: child in children && child.name == names[0] && Leads(child, names[1..])
  }

  /** The files of the tree are those that some names lead to. */
  lemma {:induction false} FilesReached(node: Node, path: Path, f: Path)
    ensures f in AllFiles(node, path) <==> path <= f && Leads(node, f[|path|..])
    decreases node, 0
  {
    match node
    case File(_, _) =>
      assert path[|path|..] == [];
      if path <= f {
        assert f == path + f[|path|..];
      }
      assert f == path <==> path <= f && f[|path|..] == [];
    case Dir(name, children) =>
      FilesBelow(node, path);
      FilesInReached(children, path, f);
  }

  lemma {:induction false} FilesInReached(nodes: seq<Node>, path: Path, f: Path)
    ensures f in FilesIn(nodes, path)
       <==> path < f && exists child :: child in nodes && child.name == f[|path|] && Leads(child, f[|path|..][1..])
    decreases nodes, 1
  {
    FilesInBelow(nodes, path);
    if nodes != [] {
      var below := path + [nodes[0].name];
      FilesReached(nodes[0], below, f);
      FilesInReached(nodes[1..], path, f);
      assert below <= f <==> path < f && nodes[0].name == f[|path|];
      assert path < f ==> f[|path|..][1..] == f[|path| + 1..];
      assert forall c | c in nodes :: c == nodes[0] || c in nodes[1..];
      assert nodes[0] in nodes && forall c | c in nodes[1..] :: c in nodes;
    }
  }

  /** What is found: exactly the files that the name pattern takes and that are neither blocked
      nor ignored, they or a directory above them. */
  lemma {:induction false} FoundIff(q: Query, files: seq<Path>, f: Path)
    ensures f in Filter(q, files)
       <==> f in files && f != [] && q.nameMatches(f[|f| - 1]) && !q.blocked(f) && !IgnoredBy(q.own, f, false)
  {
    if files != [] {
      FoundIff(q, files[1..], f);
    }
  }

  /** A pruned directory hides no file that would have been selected. */
  lemma PrunedHoldsNothing(q: Query, node: Node, path: Path)
    requires node.Dir? && IgnoredBy(q.own, path, true)
    ensures Filter(q, AllFiles(node, path)) == []
  {
    FilesBelow(node, path);
    forall f | f in AllFiles(node, path) ensures !Selected(q, f) {
      assert f == path + f[|path|..];
      IgnoredBelow(q.own, path, f[|path|..], false);
    }
    FilterNone(q, AllFiles(node, path));
  }

  /** The list cut to the limit. */
  function Cut(files: seq<Path>, limit: nat): seq<Path> {
    if |files| <= limit then files else files[..limit]
  }

  class Finder {
    const query: Query
    const limit: nat
    var matches: seq<Path>
    var truncated: bool
    ghost var visited: seq<Path> // the selected files that the walk has been through so far

    ghost predicate Valid()
      reads this
    {
      matches == Cut(visited, limit) && (truncated <==> |visited| > limit)
    }

    constructor (query: Query, limit: nat)
      ensures Valid() && visited == [] && this.query == query && this.limit == limit
    {
      this.query, this.limit := query, limit;
      matches, truncated, visited := [], false, [];
    }

    /** One file: returns true when the walk must stop. */
    method VisitFile(path: Path, symlink: bool) returns (stop: bool)
      requires Valid() && !truncated
      modifies this
      ensures Valid() && stop == truncated
      ensures visited == old(visited) + Filter(query, if symlink then [] else [path])
    {
      ghost var one := [path];
      assert one[1..] == [];
      assert visited + [] == visited;
      if symlink || !Selected(query, path) { return false; }
      visited := visited + [path];
      if |matches| >= limit {
        truncated := true;
        return true;
      }
      matches := matches + [path];
      return false;
    }

    /** The walk from node on. Unless it stops early, it has selected exactly the files that
        filtering the whole tree selects; when it stops, what it has is the first of them. */
    method Walk(node: Node, path: Path, isRoot: bool) returns (stop: bool)
      requires Valid() && !truncated
      modifies this
      ensures Valid() && stop == truncated
      ensures !stop ==> visited == old(visited) + Filter(query, AllFiles(node, path))
      ensures stop ==> visited <= old(visited) + Filter(query, AllFiles(node, path))
      decreases node, 0
    {
      match node
      case File(_, symlink) =>
        stop := VisitFile(path, symlink);
      case Dir(name, children) =>
        assert visited + [] == visited;
        if name == ".git" { return false; }
        if !isRoot && IgnoredBy(query.own, path, true) {
          PrunedHoldsNothing(query, node, path);
          return false;
        }
        stop := WalkAll(children, path);
    }

    method WalkAll(nodes: seq<Node>, path: Path) returns (stop: bool)
      requires Valid() && !truncated
      modifies this
      ensures Valid() && stop == truncated
      ensures !stop ==> visited == old(visited) + Filter(query, FilesIn(nodes, path))
      ensures stop ==> visited <= old(visited) + Filter(query, FilesIn(nodes, path))
      decreases nodes, 1
    {
      if nodes == [] {
        assert visited + [] == visited;
        return false;
      }
      ghost var start := visited;
      ghost var first := Filter(query, AllFiles(nodes[0], path + [nodes[0].name]));
      ghost var rest := Filter(query, FilesIn(nodes[1..], path));
      FilterConcat(query, AllFiles(nodes[0], path + [nodes[0].name]), FilesIn(nodes[1..], path));
      assert start + (first + rest) == start + first + rest;
      stop := Walk(nodes[0], path + [nodes[0].name], false);
      if stop { return; }
      stop := WalkAll(nodes[1..], path);
    }
  }

  /** find_files: exactly the selected files of the unpruned tree, cut to the limit, and
      truncated exactly when there are more. */
  method FindAll(query: Query, root: Node, path: Path, limit: nat) returns (matches: seq<Path>, truncated: bool)
    ensures matches == Cut(Filter(query, AllFiles(root, path)), limit)
    ensures truncated <==> |Filter(query, AllFiles(root, path))| > limit
  {
    var finder := new Finder(query, limit);
    assert [] + Filter(query, AllFiles(root, path)) == Filter(query, AllFiles(root, path));
    var _ := finder.Walk(root, path, true);
    return finder.matches, finder.truncated;
  }
}
