/** The file tree of src/store/fileStore.ts: `FileNode`, and the recursive
    `directoryTree` walk that turns the runtime's directory listings into
    nodes, joining paths and sorting every level directories-first, then by
    name. */
module FileTree {
  import opened Strings

  datatype FileNode =
    | File(name: string, path: string)
    | Directory(name: string, path: string, children: seq<FileNode>)

  /** One entry of `readdir(path, {withFileTypes: true})`. For a directory it
      also holds what `readdir` lists inside it, in the order listed. */
  datatype Dirent =
    | FileEntry(name: string)
    | DirEntry(name: string, listing: seq<Dirent>)

  /** `` `${path}/${entry.name}`.replace(/\/\//g, '/') ``. */
  function Join(parent: string, name: string): string {
    CollapseSlashes(parent + "/" + name)
  }

  /** The children of the root are "/" + their name. */
  lemma JoinRoot(name: string)
    requires '/' !in name
    ensures Join("/", name) == "/" + name
  {
    assert "/" + "/" + name == "//" + name;
    assert ("//" + name)[2..] == name;
    CollapseIdentity(name);
  }

  /** Below a normalised directory path (no double slash, no trailing slash),
      a child's path is the parent, a slash, and the name. */
  lemma JoinNormalised(parent: string, name: string)
    requires NoDoubleSlash(parent)
    requires parent == [] || parent[|parent| - 1] != '/'
    requires '/' !in name
    ensures Join(parent, name) == parent + "/" + name
  {
    JoinNoDoubleSlash(parent, name);
    CollapseIdentity(parent + "/" + name);
  }

  // ---------------------------------------------------------------------------
  // Sorting

  /** The sort comparator returns a value <= 0: a directory before a file,
      otherwise names in order. */
  predicate NodeLe(a: FileNode, b: FileNode) {
    if a.Directory? == b.Directory? then LexLe(a.name, b.name) else a.Directory?
  }

  lemma NodeLeTotal(a: FileNode, b: FileNode)
    ensures NodeLe(a, b) || NodeLe(b, a)
  {
    LexLeTotal(a.name, b.name);
  }

  lemma NodeLeTransitive(a: FileNode, b: FileNode, c: FileNode)
    requires NodeLe(a, b) && NodeLe(b, c)
    ensures NodeLe(a, c)
  {
    if a.Directory? == b.Directory? == c.Directory? {
      LexLeTransitive(a.name, b.name, c.name);
    }
  }

  /** One level in sorted order: every directory before every file, and
      names ordered within each group. */
  predicate SortedLevel(s: seq<FileNode>) {
    forall i, j :: 0 <= i < j < |s| ==> NodeLe(s[i], s[j])
  }

  /** Inserts `x` before the first element it does not sort after, so equal
      elements keep their order (the sort is stable). */
  function Insert(x: FileNode, s: seq<FileNode>): (r: seq<FileNode>)
    ensures multiset(r) == multiset(s) + multiset{x}
  {
    if s == [] then [x]
    else if NodeLe(x, s[0]) then [x] + s
    else
      assert s == [s[0]] + s[1..];
      [s[0]] + Insert(x, s[1..])
  }

  /** `nodes.sort(comparator)` as a stable insertion sort. */
  function SortNodes(s: seq<FileNode>): (r: seq<FileNode>)
    ensures multiset(r) == multiset(s)
  {
    if s == [] then []
    else
      assert s == [s[0]] + s[1..];
      Insert(s[0], SortNodes(s[1..]))
  }

  lemma {:induction false} InsertSorted(x: FileNode, s: seq<FileNode>)
    requires SortedLevel(s)
    ensures SortedLevel(Insert(x, s))
  {
    if s == [] {
    } else if NodeLe(x, s[0]) {
      var r := [x] + s;
      forall i, j | 0 <= i < j < |r|
        ensures NodeLe(r[i], r[j])
      {
        if i == 0 && j > 1 {
          NodeLeTransitive(x, s[0], s[j - 1]);
        }
      }
    } else {
      NodeLeTotal(x, s[0]);
      InsertSorted(x, s[1..]);
      var t := Insert(x, s[1..]);
      var r := [s[0]] + t;
      forall i, j | 0 <= i < j < |r|
        ensures NodeLe(r[i], r[j])
      {
        if i == 0 {
          assert r[j] == t[j - 1];
          assert t[j - 1] in multiset(t);
          if t[j - 1] != x {
            assert t[j - 1] in multiset(s[1..]);
            var k :| 0 <= k < |s[1..]| && s[1..][k] == t[j - 1];
            assert s[k + 1] == t[j - 1];
          }
        }
      }
    }
  }

  /** The sorted level is in comparator order and a permutation of its input. */
  lemma {:induction false} SortNodesSorted(s: seq<FileNode>)
    ensures SortedLevel(SortNodes(s))
    ensures multiset(SortNodes(s)) == multiset(s)
  {
    if s != [] {
      SortNodesSorted(s[1..]);
      InsertSorted(s[0], SortNodes(s[1..]));
    }
  }

  // ---------------------------------------------------------------------------
  // directoryTree

  /** The node built for one listed entry under `parent`. */
  function ToNode(parent: string, e: Dirent): FileNode
    decreases e, 2
  {
    match e
    case FileEntry(name) => File(name, Join(parent, name))
    case DirEntry(name, listing) =>
      var fullPath := Join(parent, name);
      Directory(name, fullPath, DirectoryTree(fullPath, listing))
  }

  /** The nodes of a listing, in listing order (the `Promise.all` map). */
  function ToNodes(parent: string, es: seq<Dirent>): (r: seq<FileNode>)
    ensures |r| == |es|
    ensures forall i :: 0 <= i < |es| ==> r[i] == ToNode(parent, es[i])
    decreases es, 0
  {
    if es == [] then [] else [ToNode(parent, es[0])] + ToNodes(parent, es[1..])
  }

  /** `directoryTree(path)` on a walk that succeeds. */
  function DirectoryTree(path: string, es: seq<Dirent>): seq<FileNode>
    decreases es, 1
  {
    SortNodes(ToNodes(path, es))
  }

  /** The shape of a tree `directoryTree` builds: every level sorted, and
      every node's path its parent's path joined with its name. */
  predicate WellFormed(parent: string, nodes: seq<FileNode>)
    decreases nodes
  {
    && SortedLevel(nodes)
    && forall i :: 0 <= i < |nodes| ==>
         && nodes[i].path == Join(parent, nodes[i].name)
         && (nodes[i].Directory? ==> WellFormed(nodes[i].path, nodes[i].children))
  }

  /** Each level of `directoryTree(path)` is a sorted permutation of the
      listed entries: the same names, a directory for each directory entry and
      a file for each file entry, each at the parent path joined with its
      name, and every directory holding the tree of its own listing. */
  lemma {:induction false} DirectoryTreeLevel(path: string, es: seq<Dirent>)
    ensures SortedLevel(DirectoryTree(path, es))
    ensures multiset(DirectoryTree(path, es)) == multiset(ToNodes(path, es))
    ensures forall n :: n in DirectoryTree(path, es) ==>
              exists k :: 0 <= k < |es| && n == ToNode(path, es[k])
  {
    var nodes := ToNodes(path, es);
    SortNodesSorted(nodes);
    forall n | n in DirectoryTree(path, es)
      ensures exists k :: 0 <= k < |es| && n == ToNode(path, es[k])
    {
      assert n in multiset(nodes);
      var k :| 0 <= k < |nodes| && nodes[k] == n;
    }
  }

  /** The whole tree `directoryTree(path)` builds is well formed. */
  lemma {:induction false} DirectoryTreeWellFormed(path: string, es: seq<Dirent>)
    ensures WellFormed(path, DirectoryTree(path, es))
    decreases es
  {
    var r := DirectoryTree(path, es);
    DirectoryTreeLevel(path, es);
    forall i | 0 <= i < |r|
      ensures r[i].path == Join(path, r[i].name)
      ensures r[i].Directory? ==> WellFormed(r[i].path, r[i].children)
    {
      assert r[i] in r;
      var k :| 0 <= k < |es| && r[i] == ToNode(path, es[k]);
      match es[k]
      case FileEntry(_) =>
      case DirEntry(name, listing) =>
        assert es[k] in es;
        DirectoryTreeWellFormed(Join(path, name), listing);
    }
  }
}
