/** src/components/FileExplorer/FileTreeItem.tsx: one row of the explorer.
    It selects on click, renames its node in place and deletes it after
    confirmation. The browser's `confirm` answer is a parameter. */
module FileTreeItem {
  import opened Strings
  import opened Outcomes
  import opened Storage
  import opened Runtime
  import opened FileTree
  import FileStore

  /** The path a rename to `name` asks for: the node's path up to its last
      slash (nothing when there is none), then "/" and the name, with
      doubled slashes collapsed. An empty parent gives "/" + name. */
  function RenamePath(path: string, name: string): string {
    var i := LastIndexOf(path, '/');
    var parentPath := if i < 0 then "" else path[..i];
    CollapseSlashes(if parentPath != "" then parentPath + "/" + name else "/" + name)
  }

  /** A parent path as the tree builds them: the root, or a path with no
      doubled and no trailing slash. */
  predicate NormalParent(parent: string) {
    parent == "/" || (NoDoubleSlash(parent) && (parent == [] || parent[|parent| - 1] != '/'))
  }

  /** Renaming a tree node keeps it in its directory: the new path is the
      path the tree gives a child with the new name in the same parent. */
  lemma RenamePathSibling(parent: string, name: string, newName: string)
    requires NormalParent(parent)
    requires '/' !in name && '/' !in newName
    ensures RenamePath(Join(parent, name), newName) == Join(parent, newName)
  {
    JoinNoDoubleSlash("", newName);
    assert "" + "/" + newName == "/" + newName;
    CollapseIdentity("/" + newName);
    if parent == "/" {
      JoinRoot(name);
      JoinRoot(newName);
      var p := "/" + name;
      assert p[0] == '/';
      assert LastIndexOf(p, '/') == 0 by {
        assert forall j :: 0 < j < |p| ==> p[j] == name[j - 1];
      }
    } else {
      JoinNormalised(parent, name);
      JoinNormalised(parent, newName);
      var p := parent + "/" + name;
      assert p[|parent|] == '/';
      assert LastIndexOf(p, '/') == |parent| by {
        assert forall j :: |parent| < j < |p| ==> p[j] == name[j - |parent| - 1];
      }
      assert p[..|parent|] == parent;
      if parent == "" {
        assert Join(parent, newName) == "/" + newName;
      }
    }
  }

  /** The rename a submit issues: none when not renaming, or when the
      trimmed name is empty or the node's own name; otherwise the node's path
      to the path for the trimmed name. */
  function RenameRequest(node: FileNode, isRenaming: bool, newName: string): (r: Option<string>)
    ensures r.Some? <==> isRenaming && Trim(newName) != "" && Trim(newName) != node.name
    ensures r.Some? ==> r.value == RenamePath(node.path, Trim(newName))
  {
    var trimmed := Trim(newName);
    if isRenaming && trimmed != "" && trimmed != node.name then Some(RenamePath(node.path, trimmed)) else None
  }

  /** The row's own state. */
  class Item {
    const node: FileNode
    var isExpanded: bool
    var isRenaming: bool
    var newName: string
    var showActions: bool

    /** A row at `depth`: expanded at the top level of an open explorer. */
    constructor (node: FileNode, depth: nat, explorerCollapsed: bool)
      ensures this.node == node && isExpanded == (depth < 1 && !explorerCollapsed)
      ensures !isRenaming && newName == node.name && !showActions
    {
      this.node := node;
      isExpanded := depth < 1 && !explorerCollapsed;
      isRenaming := false;
      newName := node.name;
      showActions := false;
    }

    /** `handleClick`: with the explorer collapsed only a file is selected;
        otherwise the node is selected, and a directory also toggles. */
    method Click(fs: FileStore.Store, explorerCollapsed: bool)
      modifies this`isExpanded, fs`currentFile
      ensures fs.currentFile == if explorerCollapsed && node.Directory? then old(fs.currentFile) else Some(node.path)
      ensures isExpanded == if !explorerCollapsed && node.Directory? then !old(isExpanded) else old(isExpanded)
    {
      if explorerCollapsed {
        if node.File? {
          fs.SetCurrentFile(Some(node.path));
        }
        return;
      }
      if node.Directory? {
        isExpanded := !isExpanded;
      }
      fs.SetCurrentFile(Some(node.path));
    }

    /** `handleStartRename`: enters renaming with the node's name. */
    method StartRename()
      modifies this`isRenaming, this`newName, this`showActions
      ensures isRenaming && newName == node.name && !showActions
    {
      isRenaming := true;
      newName := node.name;
      showActions := false;
    }

    /** `handleRenameSubmit()`: issues the rename, if any; a failure is
        reported, swallowed, and puts the node's name back into the field.
        Renaming mode ends in every case. */
    method RenameSubmit(fs: FileStore.Store, rt: WebContainer?, db: Idb, listing: Option<seq<Dirent>>)
      returns (issued: Option<string>, r: Outcome)
      modifies this`isRenaming, this`newName, rt, db`entries, fs`currentFile, fs`fileContents, fs`fileTree, fs`isLoading
      ensures issued == RenameRequest(node, old(isRenaming), old(newName))
      ensures !isRenaming
      ensures newName == if issued.Some? && r.Failed? then node.name else old(newName)
      ensures issued.None? ==> r == Ok && unchanged(fs) && unchanged(db) && (rt != null ==> unchanged(rt))
      ensures issued.Some? ==>
                && r == (if rt == null then Failed(NotInitialized)
                         else if !old(rt.CanRename(node.path, issued.value)) then Failed(RuntimeFailure)
                         else if old(rt.CanRead(node.path)) &&
                                 (Text(StorageKey(issued.value)) in db.broken || Text(StorageKey(node.path)) in db.broken) then Failed(StorageFailure)
                         else Ok)
                && (rt != null && old(rt.CanRename(node.path, issued.value)) ==>
                      rt.files == MoveUnder(old(rt.files), node.path, issued.value) && rt.dirs == MovedDirs(old(rt.dirs), node.path, issued.value))
                && (rt != null && !old(rt.CanRename(node.path, issued.value)) ==> rt.files == old(rt.files) && rt.dirs == old(rt.dirs))
                && db.entries ==
                     (if rt != null && old(rt.CanRename(node.path, issued.value)) && old(rt.CanRead(node.path)) && Text(StorageKey(issued.value)) !in db.broken then
                        var saved := old(db.entries)[Text(StorageKey(issued.value)) := Some(old(rt.files)[node.path])];
                        if Text(StorageKey(node.path)) in db.broken then saved else saved - {Text(StorageKey(node.path))}
                      else old(db.entries))
                && fs.currentFile == (if r.Ok? && old(fs.currentFile) == Some(node.path) then Some(issued.value) else old(fs.currentFile))
                && (!r.Ok? ==> fs.fileContents == old(fs.fileContents))
                && (r.Ok? && old(rt.CanRead(node.path)) ==> fs.fileContents == FileStore.MoveEntry(old(fs.fileContents), node.path, issued.value))
                && (r.Ok? && !old(rt.CanRead(node.path)) && node.path != issued.value ==>
                      fs.fileContents == MoveUnder(old(fs.fileContents), node.path, issued.value))
                && (r.Ok? && !old(rt.CanRead(node.path)) && node.path == issued.value ==>
                      fs.fileContents == FileStore.Evicted(old(fs.fileContents), node.path, true))
                && fs.fileTree == (if r.Ok? && !old(fs.isLoading) then FileStore.LoadedTree(true, listing) else old(fs.fileTree))
                && fs.isLoading == old(fs.isLoading)
    {
      issued := RenameRequest(node, isRenaming, newName);
      r := Ok;
      if !isRenaming {
        return;
      }
      var trimmedNewName := Trim(newName);
      if trimmedNewName != "" && trimmedNewName != node.name {
        var newPath := RenamePath(node.path, trimmedNewName);
        r := fs.RenameFileOrDirectory(rt, db, node.path, newPath, listing);
        if r.Failed? {
          newName := node.name;
        }
      }
      isRenaming := false;
    }

    /** `handleDelete`: hides the actions and, when confirmed, deletes the
        node, recursively exactly when it is a directory; a failure is
        reported and swallowed. */
    method Delete(fs: FileStore.Store, rt: WebContainer?, db: Idb, confirmed: bool, listing: Option<seq<Dirent>>)
      returns (r: Outcome)
      modifies this`showActions, rt, db`entries, fs`currentFile, fs`fileContents, fs`fileTree, fs`isLoading
      ensures !showActions
      ensures isExpanded == old(isExpanded) && isRenaming == old(isRenaming) && newName == old(newName)
      ensures !confirmed ==> r == Ok && unchanged(fs) && unchanged(db) && (rt != null ==> unchanged(rt))
      ensures confirmed ==>
                && r == (if rt == null then Failed(NotInitialized)
                         else if !old(rt.CanRemove(node.path, node.Directory?)) then Failed(RuntimeFailure)
                         else if node.File? && Text(StorageKey(node.path)) in db.broken then Failed(StorageFailure)
                         else Ok)
                && (rt != null && old(rt.CanRemove(node.path, node.Directory?)) ==>
                      rt.files == RemovedFiles(old(rt.files), node.path, node.Directory?) && rt.dirs == RemovedDirs(old(rt.dirs), node.path, node.Directory?))
                && (rt != null && !old(rt.CanRemove(node.path, node.Directory?)) ==> rt.files == old(rt.files) && rt.dirs == old(rt.dirs))
                && fs.fileTree == (if r.Ok? && !old(fs.isLoading) then FileStore.LoadedTree(true, listing) else old(fs.fileTree))
                && fs.isLoading == old(fs.isLoading)
                && db.entries == (if r.Ok? && node.File? then old(db.entries) - {Text(StorageKey(node.path))} else old(db.entries))
                && fs.currentFile == (if r.Ok? && FileStore.ClearsSelection(old(fs.currentFile), node.path, node.Directory?) then None else old(fs.currentFile))
                && fs.fileContents == (if r.Ok? then FileStore.Evicted(old(fs.fileContents), node.path, node.Directory?) else old(fs.fileContents))
    {
      showActions := false;
      r := Ok;
      if confirmed {
        r := fs.DeleteFileOrDirectory(rt, db, node.path, node.Directory?, listing);
      }
    }
  }
}
