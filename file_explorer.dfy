/** src/components/FileExplorer/FileExplorer.tsx: the explorer's name
    filter over the file tree, and the form that creates a new file or
    folder. */
module FileExplorer {
  import opened Strings
  import opened Outcomes
  import opened Storage
  import opened Runtime
  import opened FileTree
  import FileStore

  // ---------------------------------------------------------------------------
  // filterTree

  /** A node's name contains the lower-cased filter text, ignoring case. */
  predicate Matches(n: FileNode, low: string) {
    Contains(Lower(n.name), low)
  }

  /** Two nodes stand for the same entry: same name, path and kind. */
  predicate SameEntry(a: FileNode, b: FileNode) {
    a.name == b.name && a.path == b.path && a.Directory? == b.Directory?
  }

  /** `r` is an order-preserving subsequence of `s`, entry by entry. */
  predicate Embeds(r: seq<FileNode>, s: seq<FileNode>)
    decreases |s|
  {
    if r == [] then true
    else if s == [] then false
    else (SameEntry(r[0], s[0]) && Embeds(r[1..], s[1..])) || Embeds(r, s[1..])
  }

  /** What the reducer pushes for one node: a matching file itself; a
      directory with its children filtered when it matches or when some
      child survives; nothing otherwise. */
  function Kept(n: FileNode, low: string): (r: seq<FileNode>)
    ensures |r| <= 1
    ensures r != [] ==> SameEntry(r[0], n)
    ensures n.File? ==> (r == [n] <==> Matches(n, low)) && (r == [] <==> !Matches(n, low))
    ensures n.Directory? && r != [] ==> r[0].children == FilterLevel(n.children, low)
    ensures n.Directory? ==> (r != [] <==> Matches(n, low) || FilterLevel(n.children, low) != [])
    decreases n, 1
  {
    match n
    case File(_, _) => if Matches(n, low) then [n] else []
    case Directory(name, path, children) =>
      var filtered := FilterLevel(children, low);
      if Matches(n, low) || |filtered| > 0 then [Directory(name, path, filtered)] else []
  }

  /** The `reduce` over one level with the lower-cased text: the nodes each
      input node pushes, in input order. */
  function FilterLevel(s: seq<FileNode>, low: string): (r: seq<FileNode>)
    ensures |r| <= |s|
    ensures Embeds(r, s)
    decreases s, 0
  {
    if s == [] then []
    else
      var head := Kept(s[0], low);
      var rest := FilterLevel(s[1..], low);
      assert head == [] ==> head + rest == rest;
      assert head != [] ==> (head + rest)[1..] == rest;
      head + rest
  }

  /** `filterTree(nodes, filterText)`. */
  function Filter(nodes: seq<FileNode>, text: string): (r: seq<FileNode>)
    ensures text == "" ==> r == nodes
    ensures Embeds(r, nodes)
  {
    if text == "" then
      EmbedsSelf(nodes);
      nodes
    else FilterLevel(nodes, Lower(text))
  }

  lemma {:induction false} EmbedsSelf(s: seq<FileNode>)
    ensures Embeds(s, s)
    decreases |s|
  {
    if s != [] {
      EmbedsSelf(s[1..]);
    }
  }

  /** Filtering a concatenation filters each part: the output is the nodes
      each input node pushes, in order. */
  lemma {:induction false} FilterLevelAppend(a: seq<FileNode>, b: seq<FileNode>, low: string)
    ensures FilterLevel(a + b, low) == FilterLevel(a, low) + FilterLevel(b, low)
    decreases |a|
  {
    if a == [] {
      assert a + b == b;
    } else {
      assert (a + b)[0] == a[0];
      assert (a + b)[1..] == a[1..] + b;
      FilterLevelAppend(a[1..], b, low);
      calc {
        FilterLevel(a + b, low);
        Kept(a[0], low) + FilterLevel(a[1..] + b, low);
        Kept(a[0], low) + (FilterLevel(a[1..], low) + FilterLevel(b, low));
        (Kept(a[0], low) + FilterLevel(a[1..], low)) + FilterLevel(b, low);
      }
    }
  }

  /** The node at position `i` contributes exactly what `Kept` says, between
      what the nodes before it and after it contribute. */
  lemma FilterLevelAt(s: seq<FileNode>, i: int, low: string)
    requires 0 <= i < |s|
    ensures FilterLevel(s, low) == FilterLevel(s[..i], low) + Kept(s[i], low) + FilterLevel(s[i + 1..], low)
  {
    var tail := [s[i]] + s[i + 1..];
    assert s == s[..i] + tail;
    FilterLevelAppend(s[..i], tail, low);
    assert tail[0] == s[i] && tail[1..] == s[i + 1..];
    assert FilterLevel(tail, low) == Kept(s[i], low) + FilterLevel(s[i + 1..], low);
  }

  /** A file of the level is in the filtered level exactly when its name
      matches; nothing else becomes that file. */
  lemma {:induction false} FilterLevelFiles(s: seq<FileNode>, low: string, f: FileNode)
    requires f.File?
    ensures f in FilterLevel(s, low) <==> f in s && Matches(f, low)
    decreases s
  {
    if s != [] {
      FilterLevelFiles(s[1..], low, f);
      var head := Kept(s[0], low);
      assert FilterLevel(s, low) == head + FilterLevel(s[1..], low);
      assert f in s <==> f == s[0] || f in s[1..];
    }
  }

  /** Filtering an already filtered level with the same text changes
      nothing. */
  lemma {:induction false} FilterLevelIdempotent(s: seq<FileNode>, low: string)
    ensures FilterLevel(FilterLevel(s, low), low) == FilterLevel(s, low)
    decreases s, 0
  {
    if s != [] {
      var head := Kept(s[0], low);
      var rest := FilterLevel(s[1..], low);
      FilterLevelAppend(head, rest, low);
      KeptIdempotent(s[0], low);
      FilterLevelIdempotent(s[1..], low);
    }
  }

  lemma {:induction false} KeptIdempotent(n: FileNode, low: string)
    ensures FilterLevel(Kept(n, low), low) == Kept(n, low)
    decreases n, 1
  {
    var k := Kept(n, low);
    if k != [] {
      var m := k[0];
      assert k == [m];
      assert FilterLevel(k, low) == Kept(m, low) + FilterLevel([], low);
      if n.Directory? {
        FilterLevelIdempotent(n.children, low);
        assert m.children == FilterLevel(n.children, low);
        assert Matches(m, low) == Matches(n, low);
      }
    }
  }

  /** `filterTree` is idempotent. */
  lemma FilterIdempotent(nodes: seq<FileNode>, text: string)
    ensures Filter(Filter(nodes, text), text) == Filter(nodes, text)
  {
    if text != "" {
      FilterLevelIdempotent(nodes, Lower(text));
    }
  }

  /** `filterTree` ignores the case of the filter text. */
  lemma FilterCaseInsensitive(nodes: seq<FileNode>, t1: string, t2: string)
    requires Lower(t1) == Lower(t2)
    ensures Filter(nodes, t1) == Filter(nodes, t2)
  {
    assert |t1| == |Lower(t1)| == |t2|;
  }

  // ---------------------------------------------------------------------------
  // Creating a new item

  datatype ItemKind = NewFile | NewFolder

  /** The store call `handleSubmitNewItem` makes. */
  datatype CreateRequest = CreateFileAt(path: string) | CreateDirectoryAt(path: string)

  /** The new item's path: "/" + name at the root, otherwise the creation
      path, "/" and the name, with doubled slashes collapsed. The name is
      used untrimmed. */
  function NewItemPath(creationPath: string, name: string): string {
    CollapseSlashes(if creationPath == "/" then "/" + name else creationPath + "/" + name)
  }

  /** For a name without slashes, the new item's path is the path the tree
      gives a child of that name in the creation directory. */
  lemma NewItemPathIsChildPath(creationPath: string, name: string)
    requires '/' !in name
    ensures NewItemPath(creationPath, name) == Join(creationPath, name)
  {
    if creationPath == "/" {
      JoinRoot(name);
      assert NoDoubleSlash("/" + name) by {
        JoinNoDoubleSlash("", name);
        assert "" + "/" + name == "/" + name;
      }
      CollapseIdentity("/" + name);
    }
  }

  /** Under an absolute creation path the new item's path is absolute. */
  lemma NewItemPathAbsolute(creationPath: string, name: string)
    requires |creationPath| > 0 && creationPath[0] == '/'
    ensures |NewItemPath(creationPath, name)| > 0 && NewItemPath(creationPath, name)[0] == '/'
  {
    if creationPath != "/" {
      assert (creationPath + "/" + name)[0] == '/';
    }
  }

  /** The request a submit issues: none for a blank name or when no kind is
      being created, otherwise a file or a directory at the new item's
      path. */
  function NewItemRequest(kind: Option<ItemKind>, creationPath: string, name: string): (r: Option<CreateRequest>)
    ensures r.Some? <==> Trim(name) != "" && kind.Some?
    ensures r.Some? ==> r.value.path == NewItemPath(creationPath, name)
    ensures r.Some? ==> (r.value.CreateFileAt? <==> kind.value == NewFile)
  {
    if Trim(name) == "" then None
    else
      match kind
      case None => None
      case Some(NewFile) => Some(CreateFileAt(NewItemPath(creationPath, name)))
      case Some(NewFolder) => Some(CreateDirectoryAt(NewItemPath(creationPath, name)))
  }

  /** The explorer's creation form. */
  class Explorer {
    var creating: Option<ItemKind>
    var newItemName: string
    var creationPath: string

    constructor ()
      ensures creating == None && newItemName == "" && creationPath == "/"
    {
      creating := None;
      newItemName := "";
      creationPath := "/";
    }

    /** `handleCreateNew(type, path)`: opens the form for `kind` in `path`
        with an empty name. */
    method CreateNew(kind: ItemKind, path: string)
      modifies this
      ensures creating == Some(kind) && creationPath == path && newItemName == ""
    {
      creationPath := path;
      creating := Some(kind);
      newItemName := "";
    }

    /** `handleSubmitNewItem()`: issues the request for the current form, if
        any; a failure is reported and swallowed. The form is closed in every
        case, and its name cleared unless it was blank. */
    method SubmitNewItem(fs: FileStore.Store, rt: WebContainer?, db: Idb, listing: Option<seq<Dirent>>)
      returns (issued: Option<CreateRequest>, r: Outcome)
      modifies this, rt, db`entries, fs`fileTree, fs`isLoading
      ensures issued == NewItemRequest(old(creating), old(creationPath), old(newItemName))
      ensures creating == None && creationPath == old(creationPath)
      ensures newItemName == if Trim(old(newItemName)) == "" then old(newItemName) else ""
      ensures issued.None? ==> r == Ok && unchanged(fs) && unchanged(db) && (rt != null ==> unchanged(rt))
      ensures issued.Some? && issued.value.CreateFileAt? ==>
                && r == (if rt == null then Failed(NotInitialized)
                         else if !old(rt.CanWrite(issued.value.path)) then Failed(RuntimeFailure)
                         else if Text(StorageKey(issued.value.path)) in db.broken then Failed(StorageFailure)
                         else Ok)
                && (rt != null ==> rt.files == if old(rt.CanWrite(issued.value.path)) then old(rt.files)[issued.value.path := ""] else old(rt.files))
                && (rt != null ==> rt.dirs == old(rt.dirs))
                && db.entries == (if r.Ok? then old(db.entries)[Text(StorageKey(issued.value.path)) := Some("")] else old(db.entries))
      ensures issued.Some? && issued.value.CreateDirectoryAt? ==>
                && r == (if rt == null then Failed(NotInitialized)
                         else if !old(rt.CanMkdir(issued.value.path)) then Failed(RuntimeFailure)
                         else Ok)
                && (rt != null ==> rt.files == old(rt.files))
                && (rt != null ==> rt.dirs == if r.Ok? then old(rt.dirs) + {issued.value.path} else old(rt.dirs))
                && db.entries == old(db.entries)
      ensures issued.Some? ==> fs.fileTree == if r.Ok? && !old(fs.isLoading) then FileStore.LoadedTree(true, listing) else old(fs.fileTree)
      ensures fs.isLoading == old(fs.isLoading)
    {
      issued := NewItemRequest(creating, creationPath, newItemName);
      r := Ok;
      if Trim(newItemName) == "" {
        creating := None;
        return;
      }
      var fullPath := NewItemPath(creationPath, newItemName);
      if creating == Some(NewFile) {
        r := fs.CreateFile(rt, db, fullPath, listing);
      } else if creating == Some(NewFolder) {
        r := fs.CreateDirectory(rt, fullPath, listing);
      }
      // finally
      creating := None;
      newItemName := "";
    }

    /** `handleRefresh()`: reloads the tree unless a load is in progress. */
    method Refresh(fs: FileStore.Store, rt: WebContainer?, listing: Option<seq<Dirent>>)
      modifies fs`fileTree, fs`isLoading
      ensures fs.fileTree == if old(fs.isLoading) then old(fs.fileTree) else FileStore.LoadedTree(rt != null, listing)
      ensures fs.isLoading == old(fs.isLoading)
    {
      if !fs.isLoading {
        fs.LoadFileTree(rt, listing);
      }
    }
  }
}
