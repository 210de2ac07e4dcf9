/** src/store/fileStore.ts: the store behind the explorer and the editor. It
    holds the loaded file tree, the selected file, a cache of file contents
    and a loading flag, and keeps the runtime filesystem and the persistent
    store in step on save, create, delete and rename.

    The runtime instance the store looks up is a parameter (`null` when no
    runtime has booted); the result of walking the runtime's directories,
    which can fail or time out, is a parameter too (`None` on failure). */
module FileStore {
  import opened Strings
  import opened Outcomes
  import opened Storage
  import opened Runtime
  import opened FileTree

  /** The tree `loadFileTree` stores: the walk from "/" when there is an
      instance and the walk succeeds in time, otherwise the empty tree. */
  function LoadedTree(hasInstance: bool, listing: Option<seq<Dirent>>): seq<FileNode> {
    if hasInstance && listing.Some? then DirectoryTree("/", listing.value) else []
  }

  /** Whatever `loadFileTree` stores is a well-formed tree: sorted at every
      level, every path its parent's joined with its name. */
  lemma LoadedTreeWellFormed(hasInstance: bool, listing: Option<seq<Dirent>>)
    ensures WellFormed("/", LoadedTree(hasInstance, listing))
  {
    if hasInstance && listing.Some? {
      DirectoryTreeWellFormed("/", listing.value);
    }
  }

  /** The selection is cleared by deleting `path` when it is set and is
      `path`, or lies below it when a directory goes. */
  predicate ClearsSelection(current: Option<string>, path: string, isDirectory: bool) {
    Truthy(current) && (current.value == path || (isDirectory && StartsWith(current.value, path + "/")))
  }

  /** The content cache after deleting `path`: its entry goes, and for a
      directory every entry below it. */
  function Evicted(cache: map<string, string>, path: string, isDirectory: bool): (r: map<string, string>)
    ensures path !in r
    ensures forall k :: k in r ==> k in cache && r[k] == cache[k]
    ensures isDirectory ==> forall k :: k in r ==> !StartsWith(k, path + "/")
    ensures forall k :: k in cache && k != path && !(isDirectory && StartsWith(k, path + "/")) ==> k in r
  {
    if isDirectory then RemoveUnder(cache, path) else cache - {path}
  }

  /** The content cache after the first step of a rename: the entry at
      `oldPath`, if any, is copied to `newPath` and then deleted, so it is
      lost when the two paths are equal. */
  function MoveEntry(cache: map<string, string>, oldPath: string, newPath: string): (r: map<string, string>)
    ensures oldPath !in r
    ensures oldPath in cache && oldPath != newPath ==> newPath in r && r[newPath] == cache[oldPath]
    ensures oldPath !in cache ==> r == cache
    ensures forall k :: k in cache && k != oldPath && k != newPath ==> k in r && r[k] == cache[k]
    ensures forall k :: k in r && k != newPath ==> k in cache && r[k] == cache[k]
  {
    if oldPath in cache then cache[newPath := cache[oldPath]] - {oldPath} else cache
  }

  /** The entry a map holds at `x`, if any. */
  function Lookup(m: map<string, string>, x: string): Option<string> {
    if x in m then Some(m[x]) else None
  }

  /** What the cache holds at `x` part way through re-prefixing for a
      directory rename, once the keys in `done` have been visited: a path
      below `newPath` whose origin below `oldPath` was visited holds the
      origin's entry; otherwise a path keeps its own entry, unless it is a
      visited path below `oldPath`. */
  function PartialAt(start: map<string, string>, done: set<string>, oldPath: string, newPath: string, x: string): Option<string> {
    if StartsWith(x, newPath + "/") && Reroot(x, newPath, oldPath) in start && Reroot(x, newPath, oldPath) in done then
      Some(start[Reroot(x, newPath, oldPath)])
    else if x in start && !(x in done && StartsWith(x, oldPath + "/")) then Some(start[x])
    else None
  }

  /** `cur` is the cache part way through re-prefixing. */
  ghost predicate Partway(cur: map<string, string>, start: map<string, string>, done: set<string>, oldPath: string, newPath: string) {
    forall x :: Lookup(cur, x) == PartialAt(start, done, oldPath, newPath, x)
  }

  /** Visiting a key below `oldPath` moves its entry to the rerooted key;
      visiting any other key changes nothing. */
  lemma VisitPartway(cur: map<string, string>, start: map<string, string>, done: set<string>, k: string, oldPath: string, newPath: string)
    requires NoClash(oldPath, newPath)
    requires Partway(cur, start, done, oldPath, newPath)
    requires k in start && k !in done
    ensures k in cur
    ensures StartsWith(k, oldPath + "/") ==>
              Partway(cur[Reroot(k, oldPath, newPath) := cur[k]] - {k}, start, done + {k}, oldPath, newPath)
    ensures !StartsWith(k, oldPath + "/") ==> Partway(cur, start, done + {k}, oldPath, newPath)
  {
    assert Lookup(cur, k) == PartialAt(start, done, oldPath, newPath, k);
    if StartsWith(k, oldPath + "/") {
      SlashPrefixesDisjoint(k, oldPath, newPath);
      var t := Reroot(k, oldPath, newPath);
      RerootBack(k, oldPath, newPath);
      RerootUnder(k, oldPath, newPath);
      var next := cur[t := cur[k]] - {k};
      forall x
        ensures Lookup(next, x) == PartialAt(start, done + {k}, oldPath, newPath, x)
      {
        assert Lookup(cur, x) == PartialAt(start, done, oldPath, newPath, x);
        if x != t && StartsWith(x, newPath + "/") {
          RerootBack(x, newPath, oldPath);
        }
      }
    } else {
      forall x
        ensures Lookup(cur, x) == PartialAt(start, done + {k}, oldPath, newPath, x)
      {
        assert Lookup(cur, x) == PartialAt(start, done, oldPath, newPath, x);
        if StartsWith(x, newPath + "/") {
          RerootUnder(x, newPath, oldPath);
        }
      }
    }
  }

  /** Once every key has been visited, the directory rename has moved the
      cache exactly as the runtime moves its files. */
  lemma PartwayDone(cur: map<string, string>, cache: map<string, string>, oldPath: string, newPath: string)
    requires NoClash(oldPath, newPath)
    requires Partway(cur, MoveEntry(cache, oldPath, newPath), MoveEntry(cache, oldPath, newPath).Keys, oldPath, newPath)
    ensures cur == MoveUnder(cache, oldPath, newPath)
  {
    var c1 := MoveEntry(cache, oldPath, newPath);
    var r := MoveUnder(cache, oldPath, newPath);
    forall x
      ensures Lookup(cur, x) == Lookup(r, x)
    {
      assert Lookup(cur, x) == PartialAt(c1, c1.Keys, oldPath, newPath, x);
      MoveUnderAt(cache, oldPath, newPath, x);
      if StartsWith(x, newPath + "/") {
        RerootUnder(x, newPath, oldPath);
        var q := Reroot(x, newPath, oldPath);
        SlashPrefixesDisjoint(q, oldPath, newPath);
        assert x != newPath by {
          assert |x| > |newPath|;
        }
        if x in cache {
          assert x != oldPath;
          if StartsWith(x, oldPath + "/") {
            SlashPrefixesDisjoint(x, oldPath, newPath);
          }
        }
      } else if x == newPath {
        assert Reroot(x, newPath, oldPath) == oldPath;
      } else if x != oldPath && StartsWith(x, oldPath + "/") {
        SlashPrefixesDisjoint(x, oldPath, newPath);
      }
    }
    forall x | x in cur
      ensures x in r && cur[x] == r[x]
    {
      assert Lookup(cur, x) == Lookup(r, x);
    }
    forall x | x in r
      ensures x in cur
    {
      assert Lookup(cur, x) == Lookup(r, x);
    }
  }

  /** The cache eviction of `deleteFileOrDirectory`: delete `path`, then, for
      a directory, every cached key starting with `path + "/"`, visited in
      any order. */
  method EvictCache(cache: map<string, string>, path: string, isDirectory: bool) returns (newFileContents: map<string, string>)
    ensures newFileContents == Evicted(cache, path, isDirectory)
  {
    newFileContents := cache - {path};
    if isDirectory {
      var keys := newFileContents.Keys;
      var pending := keys;
      while pending != {}
        invariant pending <= keys
        invariant newFileContents ==
                    map k | k in cache && k != path && !(k in keys - pending && StartsWith(k, path + "/")) :: cache[k]
        decreases pending
      {
        var cachedPath :| cachedPath in pending;
        pending := pending - {cachedPath};
        if StartsWith(cachedPath, path + "/") {
          newFileContents := newFileContents - {cachedPath};
        }
      }
      assert newFileContents == RemoveUnder(cache, path);
    }
  }

  /** The cache update of `renameFileOrDirectory`: the entry at `oldPath`
      moves to `newPath`; then, when the old path was not a readable file,
      every cached key starting with `oldPath + "/"` is re-prefixed, visited
      in any order. When the two paths do not overlap, the result is the
      cache moved exactly as the runtime moves its files. A directory renamed
      onto itself loses its cached entry and every cached entry below it, as
      if it had been deleted: each key is re-rooted to itself and then
      removed. */
  method MoveCache(cache: map<string, string>, oldPath: string, newPath: string, isFile: bool) returns (newFileContents: map<string, string>)
    ensures isFile ==> newFileContents == MoveEntry(cache, oldPath, newPath)
    ensures !isFile && NoClash(oldPath, newPath) ==> newFileContents == MoveUnder(cache, oldPath, newPath)
    ensures !isFile && oldPath == newPath ==> newFileContents == Evicted(cache, oldPath, true)
  {
    newFileContents := MoveEntry(cache, oldPath, newPath);
    if !isFile {
      ghost var start := newFileContents;
      var keys := newFileContents.Keys;
      var pending := keys;
      ghost var done: set<string> := {};
      while pending != {}
        invariant pending <= keys && done == keys - pending
        invariant pending <= newFileContents.Keys
        invariant NoClash(oldPath, newPath) ==> Partway(newFileContents, start, done, oldPath, newPath)
        invariant oldPath == newPath ==>
                    newFileContents == map k | k in start && !(k in done && StartsWith(k, oldPath + "/")) :: start[k]
        decreases pending
      {
        var cachedPath :| cachedPath in pending;
        if NoClash(oldPath, newPath) {
          VisitPartway(newFileContents, start, done, cachedPath, oldPath, newPath);
        }
        pending := pending - {cachedPath};
        done := done + {cachedPath};
        if StartsWith(cachedPath, oldPath + "/") {
          StartsWithLonger(cachedPath, oldPath, "/");
          var newCachedPath := Reroot(cachedPath, oldPath, newPath);
          if oldPath == newPath {
            assert newCachedPath == cachedPath;
          }
          newFileContents := newFileContents[newCachedPath := newFileContents[cachedPath]] - {cachedPath};
        }
      }
      if NoClash(oldPath, newPath) {
        PartwayDone(newFileContents, cache, oldPath, newPath);
      }
    }
  }

  /** The answer of `getFileContent(path)` from a given cache: the cached
      content, else the runtime's file, else the stored file, else "". */
  function ReadThrough(cache: map<string, string>, rt: WebContainer?, db: Idb, path: string): string
    reads rt, db
  {
    if path in cache then cache[path]
    else if rt != null && rt.CanRead(path) then rt.files[path]
    else match GetFileFromStorage(db, path)
      case Some(stored) => stored
      case None => ""
  }

  /** What `saveFile(path, …)` answers, read from the state before the
      save: no instance, a failing runtime write, a failing storage write,
      or success. */
  function SaveOutcome(rt: WebContainer?, db: Idb, path: string): (r: Outcome)
    reads rt
    ensures r.Ok? <==> rt != null && rt.CanWrite(path) && Text(StorageKey(path)) !in db.broken
  {
    if rt == null then Failed(NotInitialized)
    else if !rt.CanWrite(path) then Failed(RuntimeFailure)
    else if Text(StorageKey(path)) in db.broken then Failed(StorageFailure)
    else Ok
  }

  /** The cache after `getFileContent(path)`: a runtime or storage hit is
      cached; a cached path or a miss leaves the cache as it was. */
  function CacheAfterRead(cache: map<string, string>, rt: WebContainer?, db: Idb, path: string): (r: map<string, string>)
    reads rt, db
    ensures r == cache || (path !in cache && r == cache[path := ReadThrough(cache, rt, db, path)])
  {
    if path in cache then cache
    else if rt != null && rt.CanRead(path) then cache[path := rt.files[path]]
    else match GetFileFromStorage(db, path)
      case Some(stored) => cache[path := stored]
      case None => cache
  }

  class Store {
    var fileTree: seq<FileNode>
    var currentFile: Option<string>
    var fileContents: map<string, string>
    var isLoading: bool

    /** The initial store: no tree, no selection, an empty cache. */
    constructor ()
      ensures fileTree == [] && currentFile == None && fileContents == map[] && !isLoading
    {
      fileTree := [];
      currentFile := None;
      fileContents := map[];
      isLoading := false;
    }

    /** `loadFileTree()`: does nothing while a load is in progress; otherwise
        stores the walked tree (the empty tree when there is no instance, the
        walk fails or it times out) and clears the loading flag. */
    method LoadFileTree(rt: WebContainer?, listing: Option<seq<Dirent>>)
      modifies this`fileTree, this`isLoading
      ensures fileTree == if old(isLoading) then old(fileTree) else LoadedTree(rt != null, listing)
      ensures isLoading == old(isLoading)
    {
      if isLoading {
        return;
      }
      isLoading := true;
      if rt != null && listing.Some? {
        fileTree := DirectoryTree("/", listing.value);
      } else {
        // no instance, a failed `readdir`, or the timeout: the catch
        fileTree := [];
      }
      isLoading := false;
    }

    /** `setCurrentFile(path)`. */
    method SetCurrentFile(path: Option<string>)
      modifies this`currentFile
      ensures currentFile == path
    {
      currentFile := path;
    }

    /** `getFileContent(path)`: a cached path is answered from the cache
        alone. Otherwise the runtime is read, then the persistent store, and
        the first that has the file is cached and returned; when neither has
        it the result is "" and the cache is unchanged. It never throws. */
    method GetFileContent(rt: WebContainer?, db: Idb, path: string) returns (content: string)
      modifies this`fileContents
      ensures path in old(fileContents) ==> content == old(fileContents)[path] && fileContents == old(fileContents)
      ensures path !in old(fileContents) && rt != null && rt.CanRead(path) ==>
                content == rt.files[path] && fileContents == old(fileContents)[path := content]
      ensures path !in old(fileContents) && (rt == null || !rt.CanRead(path)) ==>
                match GetFileFromStorage(db, path)
                case Some(stored) => content == stored && fileContents == old(fileContents)[path := stored]
                case None => content == "" && fileContents == old(fileContents)
      ensures content == ReadThrough(old(fileContents), rt, db, path)
      ensures fileContents == CacheAfterRead(old(fileContents), rt, db, path)
    {
      if path in fileContents {
        return fileContents[path];
      }
      if rt == null {
        var stored := GetFileFromStorage(db, path);
        if stored.Some? {
          fileContents := fileContents[path := stored.value];
          return stored.value;
        }
        // throws "not initialized and file not in storage": the catch below
      } else {
        var read := rt.ReadFile(path);
        if read.Some? {
          fileContents := fileContents[path := read.value];
          return read.value;
        }
        // `readFile` threw: the catch below
      }
      var stored := GetFileFromStorage(db, path);
      if stored.Some? {
        fileContents := fileContents[path := stored.value];
        return stored.value;
      }
      return "";
    }

    /** `saveFile(path, content)`: writes the runtime first, then the
        persistent store, then the cache. Any failure is rethrown and stops
        the steps after it; without an instance nothing changes. On success
        the store and the cache both hold `content`. */
    method SaveFile(rt: WebContainer?, db: Idb, path: string, content: string) returns (r: Outcome)
      modifies rt, db`entries, this`fileContents
      ensures r == old(SaveOutcome(rt, db, path))
      ensures rt != null ==> rt.dirs == old(rt.dirs)
      ensures rt != null ==> rt.files == if old(rt.CanWrite(path)) then old(rt.files)[path := content] else old(rt.files)
      ensures db.entries == if r.Ok? then old(db.entries)[Text(StorageKey(path)) := Some(content)] else old(db.entries)
      ensures fileContents == if r.Ok? then old(fileContents)[path := content] else old(fileContents)
      ensures r.Ok? ==> GetFileFromStorage(db, path) == Some(content)
    {
      if rt == null {
        return Failed(NotInitialized);
      }
      var written := rt.WriteFile(path, content);
      if !written {
        return Failed(RuntimeFailure);
      }
      r := SaveFileToStorage(db, path, content);
      if r.Failed? {
        return;
      }
      fileContents := fileContents[path := content];
    }

    /** A successful save followed by a read gives back what was saved. */
    method SaveThenRead(rt: WebContainer?, db: Idb, path: string, content: string) returns (r: Outcome, read: string)
      modifies rt, db`entries, this`fileContents
      ensures r.Ok? ==> read == content
    {
      r := SaveFile(rt, db, path, content);
      read := GetFileContent(rt, db, path);
    }

    /** `createFile(path)`: writes an empty file to the runtime and the
        persistent store, then reloads the tree. The cache is not touched. */
    method CreateFile(rt: WebContainer?, db: Idb, path: string, listing: Option<seq<Dirent>>) returns (r: Outcome)
      modifies rt, db`entries, this`fileTree, this`isLoading
      ensures r == if rt == null then Failed(NotInitialized)
                   else if !old(rt.CanWrite(path)) then Failed(RuntimeFailure)
                   else if Text(StorageKey(path)) in db.broken then Failed(StorageFailure)
                   else Ok
      ensures rt != null ==> rt.dirs == old(rt.dirs)
      ensures rt != null ==> rt.files == if old(rt.CanWrite(path)) then old(rt.files)[path := ""] else old(rt.files)
      ensures db.entries == if r.Ok? then old(db.entries)[Text(StorageKey(path)) := Some("")] else old(db.entries)
      ensures fileTree == if r.Ok? && !old(isLoading) then LoadedTree(true, listing) else old(fileTree)
      ensures isLoading == old(isLoading)
    {
      if rt == null {
        return Failed(NotInitialized);
      }
      var written := rt.WriteFile(path, "");
      if !written {
        return Failed(RuntimeFailure);
      }
      r := SaveFileToStorage(db, path, "");
      if r.Failed? {
        return;
      }
      LoadFileTree(rt, listing);
    }

    /** `createDirectory(path)`: makes the directory in the runtime only,
        then reloads the tree. */
    method CreateDirectory(rt: WebContainer?, path: string, listing: Option<seq<Dirent>>) returns (r: Outcome)
      modifies rt, this`fileTree, this`isLoading
      ensures r == if rt == null then Failed(NotInitialized)
                   else if !old(rt.CanMkdir(path)) then Failed(RuntimeFailure)
                   else Ok
      ensures rt != null ==> rt.files == old(rt.files)
      ensures rt != null ==> rt.dirs == if r.Ok? then old(rt.dirs) + {path} else old(rt.dirs)
      ensures fileTree == if r.Ok? && !old(isLoading) then LoadedTree(true, listing) else old(fileTree)
      ensures isLoading == old(isLoading)
    {
      if rt == null {
        return Failed(NotInitialized);
      }
      var made := rt.Mkdir(path);
      if !made {
        return Failed(RuntimeFailure);
      }
      LoadFileTree(rt, listing);
      r := Ok;
    }

    /** `deleteFileOrDirectory(path, isDirectory)`: removes the path from the
        runtime (recursively for a directory) and, for a file only, from the
        persistent store; then clears the selection if it is the path or lies
        below a deleted directory, evicts the path (and, for a directory,
        every path below it) from the cache, and reloads the tree. A failure
        is rethrown and stops the steps after it. */
    method DeleteFileOrDirectory(rt: WebContainer?, db: Idb, path: string, isDirectory: bool, listing: Option<seq<Dirent>>)
      returns (r: Outcome)
      modifies rt, db`entries, this`currentFile, this`fileContents, this`fileTree, this`isLoading
      ensures r == if rt == null then Failed(NotInitialized)
                   else if !old(rt.CanRemove(path, isDirectory)) then Failed(RuntimeFailure)
                   else if !isDirectory && Text(StorageKey(path)) in db.broken then Failed(StorageFailure)
                   else Ok
      ensures rt != null && old(rt.CanRemove(path, isDirectory)) ==>
                rt.files == RemovedFiles(old(rt.files), path, isDirectory) && rt.dirs == RemovedDirs(old(rt.dirs), path, isDirectory)
      ensures rt != null && !old(rt.CanRemove(path, isDirectory)) ==> rt.files == old(rt.files) && rt.dirs == old(rt.dirs)
      ensures db.entries == if r.Ok? && !isDirectory then old(db.entries) - {Text(StorageKey(path))} else old(db.entries)
      ensures currentFile == if r.Ok? && ClearsSelection(old(currentFile), path, isDirectory) then None else old(currentFile)
      ensures fileContents == if r.Ok? then Evicted(old(fileContents), path, isDirectory) else old(fileContents)
      ensures fileTree == if r.Ok? && !old(isLoading) then LoadedTree(true, listing) else old(fileTree)
      ensures isLoading == old(isLoading)
    {
      if rt == null {
        return Failed(NotInitialized);
      }
      var removed := rt.Rm(path, isDirectory);
      if !removed {
        return Failed(RuntimeFailure);
      }
      if !isDirectory {
        r := DeleteFileFromStorage(db, path);
        if r.Failed? {
          return;
        }
      }
      if ClearsSelection(currentFile, path, isDirectory) {
        currentFile := None;
      }
      var newFileContents := EvictCache(fileContents, path, isDirectory);
      fileContents := newFileContents;
      LoadFileTree(rt, listing);
      r := Ok;
    }

    /** `renameFileOrDirectory(oldPath, newPath)`. The old path counts as a
        file when the runtime can read it. The runtime renames it; for a file
        the content is saved under the new path in the persistent store and
        the old entry deleted (a directory's stored files are not migrated).
        The selection follows only when it is exactly the old path. The cached
        entry of the old path moves to the new path; for a directory every
        cached path below the old path is re-prefixed, which moves the cache
        as the runtime moved its files whenever the two paths do not overlap.
        A failure is rethrown and stops the steps after it. */
    method RenameFileOrDirectory(rt: WebContainer?, db: Idb, oldPath: string, newPath: string, listing: Option<seq<Dirent>>)
      returns (r: Outcome)
      modifies rt, db`entries, this`currentFile, this`fileContents, this`fileTree, this`isLoading
      ensures r == if rt == null then Failed(NotInitialized)
                   else if !old(rt.CanRename(oldPath, newPath)) then Failed(RuntimeFailure)
                   else if old(rt.CanRead(oldPath)) &&
                           (Text(StorageKey(newPath)) in db.broken || Text(StorageKey(oldPath)) in db.broken) then Failed(StorageFailure)
                   else Ok
      ensures rt != null && old(rt.CanRename(oldPath, newPath)) ==>
                rt.files == MoveUnder(old(rt.files), oldPath, newPath) && rt.dirs == MovedDirs(old(rt.dirs), oldPath, newPath)
      ensures rt != null && !old(rt.CanRename(oldPath, newPath)) ==> rt.files == old(rt.files) && rt.dirs == old(rt.dirs)
      ensures db.entries ==
                if rt != null && old(rt.CanRename(oldPath, newPath)) && old(rt.CanRead(oldPath)) && Text(StorageKey(newPath)) !in db.broken then
                  var saved := old(db.entries)[Text(StorageKey(newPath)) := Some(old(rt.files)[oldPath])];
                  if Text(StorageKey(oldPath)) in db.broken then saved else saved - {Text(StorageKey(oldPath))}
                else old(db.entries)
      ensures currentFile == if r.Ok? && old(currentFile) == Some(oldPath) then Some(newPath) else old(currentFile)
      ensures !r.Ok? ==> fileContents == old(fileContents)
      ensures r.Ok? && old(rt.CanRead(oldPath)) ==> fileContents == MoveEntry(old(fileContents), oldPath, newPath)
      ensures r.Ok? && !old(rt.CanRead(oldPath)) && oldPath != newPath ==>
                fileContents == MoveUnder(old(fileContents), oldPath, newPath)
      ensures r.Ok? && !old(rt.CanRead(oldPath)) && oldPath == newPath ==> fileContents == Evicted(old(fileContents), oldPath, true)
      ensures fileTree == if r.Ok? && !old(isLoading) then LoadedTree(true, listing) else old(fileTree)
      ensures isLoading == old(isLoading)
    {
      if rt == null {
        return Failed(NotInitialized);
      }
      var read := rt.ReadFile(oldPath);
      var isFile := read.Some?;
      var content := if read.Some? then read.value else "";
      if rt.CanRename(oldPath, newPath) && oldPath != newPath {
        RenameNoClash(rt, oldPath, newPath);
      }
      var renamed := rt.Rename(oldPath, newPath);
      if !renamed {
        return Failed(RuntimeFailure);
      }
      r := FollowRename(rt, db, oldPath, newPath, isFile, content, listing);
    }

    /** What `renameFileOrDirectory` does once the runtime has renamed: a
        file's stored content moves to the new key, the first storage
        failure stopping the rest; then the selection follows an exact
        match, the cache moves and the tree is reloaded. */
    method FollowRename(rt: WebContainer, db: Idb, oldPath: string, newPath: string, isFile: bool, content: string,
                        listing: Option<seq<Dirent>>) returns (r: Outcome)
      modifies db`entries, this`currentFile, this`fileContents, this`fileTree, this`isLoading
      ensures r == if isFile && (Text(StorageKey(newPath)) in db.broken || Text(StorageKey(oldPath)) in db.broken) then Failed(StorageFailure)
                   else Ok
      ensures db.entries ==
                if isFile && Text(StorageKey(newPath)) !in db.broken then
                  var saved := old(db.entries)[Text(StorageKey(newPath)) := Some(content)];
                  if Text(StorageKey(oldPath)) in db.broken then saved else saved - {Text(StorageKey(oldPath))}
                else old(db.entries)
      ensures currentFile == if r.Ok? && old(currentFile) == Some(oldPath) then Some(newPath) else old(currentFile)
      ensures !r.Ok? ==> fileContents == old(fileContents)
      ensures r.Ok? && isFile ==> fileContents == MoveEntry(old(fileContents), oldPath, newPath)
      ensures r.Ok? && !isFile && NoClash(oldPath, newPath) ==> fileContents == MoveUnder(old(fileContents), oldPath, newPath)
      ensures r.Ok? && !isFile && oldPath == newPath ==> fileContents == Evicted(old(fileContents), oldPath, true)
      ensures fileTree == if r.Ok? && !old(isLoading) then LoadedTree(true, listing) else old(fileTree)
      ensures isLoading == old(isLoading)
    {
      if isFile {
        r := SaveFileToStorage(db, newPath, content);
        if r.Failed? {
          return;
        }
        r := DeleteFileFromStorage(db, oldPath);
        if r.Failed? {
          return;
        }
      }
      if currentFile == Some(oldPath) {
        currentFile := Some(newPath);
      }
      var newFileContents := MoveCache(fileContents, oldPath, newPath, isFile);
      fileContents := newFileContents;
      LoadFileTree(rt, listing);
      r := Ok;
    }

    /** `clearProjectStorage()`: deletes every stored file, then empties the
        cache, the selection and the tree. */
    method ClearProjectStorage(db: Idb)
      modifies db`entries, this`fileContents, this`currentFile, this`fileTree
      ensures db.entries == if db.keysBroken then old(db.entries) else WithoutFileKeys(old(db.entries), db.broken)
      ensures fileContents == map[] && currentFile == None && fileTree == []
    {
      ClearAllStoredFiles(db);
      fileContents := map[];
      currentFile := None;
      fileTree := [];
    }
  }
}
