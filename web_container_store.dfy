/** src/store/webContainerStore.ts: the boot and reset life cycle of the
    runtime. The store holds the runtime instance, the readiness flag and the
    dev-server status; the module-level boot promise is a field here too.

    Everything runs one call at a time, so a boot promise is always settled
    when it is looked at: it stands for the instance it resolved to. What
    `WebContainer.boot()` does is a parameter: it fails, or it yields a fresh
    runtime with an empty filesystem and the given failure modes. */
module WebContainerStore {
  import opened Strings
  import opened Outcomes
  import opened Storage
  import opened Runtime
  import opened FileSystem
  import opened FileTree
  import FileStore

  /** The outcome of `WebContainer.boot()`. */
  datatype BootResult =
    | BootFails
    | Boots(broken: set<string>, mountBroken: bool)

  // ---------------------------------------------------------------------------
  // Clearing the runtime's root

  predicate Absolute(p: string) {
    |p| > 0 && p[0] == '/'
  }

  /** A top-level entry that `reset` removes: not "." or "..", and its
      recursive `rm` does not throw. */
  predicate Cleared(name: string, broken: set<string>) {
    name != "." && name != ".." && "/" + name !in broken
  }

  /** `p` lies in a top-level entry that `reset` removes. */
  predicate ClearsPath(p: string, broken: set<string>) {
    Absolute(p) && Cleared(TopName(p), broken)
  }

  /** The files left once every removable top-level entry is gone. */
  function ClearedFiles(files: map<string, string>, broken: set<string>): (r: map<string, string>)
    ensures forall p :: p in r ==> p in files && r[p] == files[p]
    ensures forall p :: p in files && !Absolute(p) ==> p in r
    ensures forall p :: p in files && Absolute(p) && ("/" + TopName(p) in broken || TopName(p) in {".", ".."}) ==> p in r
  {
    map p | p in files && !ClearsPath(p, broken) :: files[p]
  }

  /** The directories left once every removable top-level entry is gone. */
  function ClearedDirs(dirs: set<string>, broken: set<string>): (r: set<string>)
    ensures r <= dirs
    ensures forall d :: d in dirs && !Absolute(d) ==> d in r
  {
    set d | d in dirs && !ClearsPath(d, broken)
  }

  /** The paths removed after the loop has visited the names in `done`. */
  predicate RemovedBy(p: string, broken: set<string>, done: set<string>) {
    Absolute(p) && TopName(p) in done && Cleared(TopName(p), broken)
  }

  /** A path lies under "/" + `name` exactly when it is absolute with that
      top-level name. */
  lemma UnderTopEntry(p: string, name: string)
    requires '/' !in name
    ensures Under(p, "/" + name) <==> Absolute(p) && TopName(p) == name
  {
    if Under(p, "/" + name) {
      assert p[0] == '/' by {
        if p != "/" + name {
          assert p[..|name| + 2] == "/" + name + "/";
        }
      }
    }
    if Absolute(p) {
      UnderTopName(p, name);
    }
  }

  /** A recursive `rm` of a path nothing lies under changes nothing. */
  lemma RemoveNothing(files: map<string, string>, dirs: set<string>, root: string)
    requires forall p :: p in files.Keys + dirs ==> !Under(p, root)
    ensures RemovedFiles(files, root, true) == files
    ensures RemovedDirs(dirs, root, true) == dirs
  {
  }

  /** The files left once the loop has visited the names in `done`. */
  function FilesLeft(files: map<string, string>, broken: set<string>, done: set<string>): map<string, string> {
    map p | p in files && !RemovedBy(p, broken, done) :: files[p]
  }

  /** The directories left once the loop has visited the names in `done`. */
  function DirsLeft(dirs: set<string>, broken: set<string>, done: set<string>): set<string> {
    set d | d in dirs && !RemovedBy(d, broken, done)
  }

  /** One step of the loop: removing the top-level entry `name`. */
  lemma ClearStep(files: map<string, string>, dirs: set<string>, broken: set<string>,
                  done: set<string>, name: string)
    requires '/' !in name && Cleared(name, broken)
    ensures RemovedFiles(FilesLeft(files, broken, done), "/" + name, true) == FilesLeft(files, broken, done + {name})
    ensures RemovedDirs(DirsLeft(dirs, broken, done), "/" + name, true) == DirsLeft(dirs, broken, done + {name})
  {
    forall p
      ensures Under(p, "/" + name) <==> Absolute(p) && TopName(p) == name
    {
      UnderTopEntry(p, name);
    }
  }

  /** A step that removes nothing: "." and "..", or an entry whose removal
      fails. */
  lemma ClearSkip(files: map<string, string>, dirs: set<string>, broken: set<string>,
                  done: set<string>, name: string)
    requires !Cleared(name, broken)
    ensures FilesLeft(files, broken, done + {name}) == FilesLeft(files, broken, done)
    ensures DirsLeft(dirs, broken, done + {name}) == DirsLeft(dirs, broken, done)
  {
  }

  /** Every top-level name is a single path segment. */
  lemma TopNameSegment(paths: set<string>, name: string)
    requires name in TopNames(paths)
    ensures '/' !in name
  {
    var p :| p in paths && |p| > 0 && p[0] == '/' && TopName(p) == name;
  }

  /** The loop stops removing once it has visited every top-level name. */
  lemma ClearDone(files: map<string, string>, dirs: set<string>, broken: set<string>)
    ensures FilesLeft(files, broken, TopNames(files.Keys + dirs)) == ClearedFiles(files, broken)
    ensures DirsLeft(dirs, broken, TopNames(files.Keys + dirs)) == ClearedDirs(dirs, broken)
  {
    var names := TopNames(files.Keys + dirs);
    forall p | p in files.Keys + dirs && Absolute(p)
      ensures TopName(p) in names
    {
    }
  }

  /** After the clear, no top-level entry that could have been removed is
      left: every remaining absolute path lies in "/.", "/.." or a top-level
      entry whose removal fails. */
  lemma ClearLeavesOnlyFailures(files: map<string, string>, dirs: set<string>, broken: set<string>)
    ensures forall n :: n in TopNames(ClearedFiles(files, broken).Keys + ClearedDirs(dirs, broken)) ==> !Cleared(n, broken)
  {
    var rest := ClearedFiles(files, broken).Keys + ClearedDirs(dirs, broken);
    forall n | n in TopNames(rest)
      ensures !Cleared(n, broken)
    {
      var p :| p in rest && |p| > 0 && p[0] == '/' && TopName(p) == n;
      assert !ClearsPath(p, broken);
    }
  }

  /** The runtime part of `reset()`: list the root and `rm` every entry
      except "." and ".." recursively, logging and skipping an entry whose
      removal throws. When listing the root throws, nothing is removed; no
      error escapes. */
  method ClearRuntime(rt: WebContainer)
    modifies rt`files, rt`dirs
    ensures rt.files == if "/" in rt.broken then old(rt.files) else ClearedFiles(old(rt.files), rt.broken)
    ensures rt.dirs == if "/" in rt.broken then old(rt.dirs) else ClearedDirs(old(rt.dirs), rt.broken)
  {
    var entries := rt.ReadRoot();
    if entries.None? {
      // the catch around the whole clear
      return;
    }
    var names := entries.value;
    var pending := names;
    while pending != {}
      invariant pending <= names
      invariant rt.files == FilesLeft(old(rt.files), rt.broken, names - pending)
      invariant rt.dirs == DirsLeft(old(rt.dirs), rt.broken, names - pending)
      decreases pending
    {
      var entry :| entry in pending;
      ghost var done := names - pending;
      pending := pending - {entry};
      assert names - pending == done + {entry};
      if entry == "." || entry == ".." {
        ClearSkip(old(rt.files), old(rt.dirs), rt.broken, done, entry);
        continue;
      }
      TopNameSegment(old(rt.files).Keys + old(rt.dirs), entry);
      ghost var files, dirs := rt.files, rt.dirs;
      var removed := rt.Rm("/" + entry, true);
      if "/" + entry in rt.broken {
        ClearSkip(old(rt.files), old(rt.dirs), rt.broken, done, entry);
      } else {
        if !removed {
          RemoveNothing(files, dirs, "/" + entry);
        }
        ClearStep(old(rt.files), old(rt.dirs), rt.broken, done, entry);
      }
    }
    ClearDone(old(rt.files), old(rt.dirs), rt.broken);
  }

  // ---------------------------------------------------------------------------
  // The store

  /** A runtime just booted by `boot` and mounted from `db`: the boot's
      failure modes, no directories, and only stored files with their stored
      contents, all of them when nothing fails. */
  ghost predicate BootedFrom(rt: WebContainer, boot: BootResult, db: Idb)
    reads rt, db
  {
    && boot.Boots? && rt.broken == boot.broken && rt.mountBroken == boot.mountBroken
    && rt.dirs == {}
    && (forall p :: p in rt.files ==> p in StoredFiles(db.entries) && rt.files[p] == StoredFiles(db.entries)[p])
    && (rt.mountBroken ==> rt.files == map[])
    && (!rt.mountBroken && !db.keysBroken && FileKeysHealthy(db.entries, db.broken) ==> rt.files == StoredFiles(db.entries))
  }

  /** Once the files are cleared from a store whose file keys can all be
      deleted, its file view is empty. */
  lemma ClearedStoreEmpty(entries: map<Key, Option<string>>, broken: set<Key>)
    requires FileKeysHealthy(entries, broken)
    ensures StoredFiles(WithoutFileKeys(entries, broken)) == map[]
  {
    var rest := WithoutFileKeys(entries, broken);
    forall p | p in StoredFiles(rest)
      ensures false
    {
      KeyRoundTrip(p);
    }
  }

  class Store {
    var instance: WebContainer?
    var isContainerReady: bool
    var serverUrl: Option<string>
    var isServerRunning: bool
    /** The module-level `wcBootPromise`, as the instance it resolved to. */
    var bootPromise: WebContainer?

    /** The initial store: no instance, not ready, no server. */
    constructor ()
      ensures instance == null && !isContainerReady && serverUrl == None && !isServerRunning
      ensures bootPromise == null
      ensures Valid()
    {
      instance := null;
      isContainerReady := false;
      serverUrl := None;
      isServerRunning := false;
      bootPromise := null;
    }

    /** Between calls the boot promise is the instance, and the store is
        ready exactly when there is an instance. */
    predicate Valid()
      reads this
    {
      bootPromise == instance && (isContainerReady <==> instance != null)
    }

    /** `initializeWebContainer()`. Ready with an instance: nothing happens.
        With a boot promise, it is awaited and readiness checked again.
        Otherwise the runtime boots; on success it becomes the instance, the
        stored files are mounted, the store turns ready and the file tree is
        loaded. On failure everything is cleared, the promise too, and the
        error is rethrown. */
    method Initialize(db: Idb, fs: FileStore.Store, boot: BootResult, listing: Option<seq<Dirent>>)
      returns (r: Outcome)
      modifies this, fs`fileTree, fs`isLoading
      ensures old(isContainerReady && instance != null) ==>
                r == Ok && unchanged(this) && unchanged(fs)
      ensures !old(isContainerReady && instance != null) && boot.BootFails? ==>
                && r == Failed(BootFailure)
                && instance == null && !isContainerReady && serverUrl == None && !isServerRunning
                && bootPromise == null
                && unchanged(fs)
      ensures !old(isContainerReady && instance != null) && boot.Boots? ==>
                && r == Ok
                && instance != null && fresh(instance) && BootedFrom(instance, boot, db)
                && isContainerReady && bootPromise == instance
                && serverUrl == old(serverUrl) && isServerRunning == old(isServerRunning)
                && fs.fileTree == (if old(fs.isLoading) then old(fs.fileTree) else FileStore.LoadedTree(true, listing))
                && fs.isLoading == old(fs.isLoading)
      ensures r.Ok? ==> isContainerReady && instance != null
      ensures old(Valid()) ==> Valid()
    {
      if isContainerReady && instance != null {
        return Ok;
      }
      if bootPromise != null {
        // await the settled promise, then check readiness again
        if isContainerReady && instance != null {
          return Ok;
        }
      }
      match boot
      case BootFails =>
        // the catch: clear everything, allow a retry, rethrow
        instance := null;
        isContainerReady := false;
        serverUrl := None;
        isServerRunning := false;
        bootPromise := null;
        return Failed(BootFailure);
      case Boots(broken, mountBroken) =>
        var wc := new WebContainer(broken, mountBroken);
        bootPromise := wc;
        instance := wc;
        MountFiles(wc, db);
        assert map[] + StoredFiles(db.entries) == StoredFiles(db.entries);
        isContainerReady := true;
        fs.LoadFileTree(wc, listing);
        return Ok;
    }

    /** `reset()`. With an instance, its root is cleared. The stored files,
        the content cache, the selection and the tree are cleared and the
        server status is reset. Then the instance gets the (now empty) store
        mounted again; without one the boot promise is dropped and the
        runtime boots anew, a boot failure escaping `reset`. Last, the tree
        is loaded again. */
    method Reset(db: Idb, fs: FileStore.Store, boot: BootResult, listing: Option<seq<Dirent>>)
      returns (r: Outcome)
      modifies this, instance, db`entries, fs`fileContents, fs`currentFile, fs`fileTree, fs`isLoading
      ensures serverUrl == None && !isServerRunning
      ensures db.entries == if db.keysBroken then old(db.entries) else WithoutFileKeys(old(db.entries), db.broken)
      ensures fs.fileContents == map[] && fs.currentFile == None && fs.isLoading == old(fs.isLoading)
      ensures r.Ok? ==> fs.fileTree == (if fs.isLoading then [] else FileStore.LoadedTree(true, listing))
      ensures old(instance) != null ==>
                && r == Ok
                && instance == old(instance) && isContainerReady == old(isContainerReady)
                && bootPromise == old(bootPromise)
                && instance.dirs == (if "/" in instance.broken then old(instance.dirs) else ClearedDirs(old(instance.dirs), instance.broken))
                && var left := if "/" in instance.broken then old(instance.files) else ClearedFiles(old(instance.files), instance.broken);
                   && left.Keys <= instance.files.Keys
                   && (forall p :: p in instance.files ==>
                         (p in StoredFiles(db.entries) && instance.files[p] == StoredFiles(db.entries)[p]) ||
                         (p in left && instance.files[p] == left[p]))
                   && (!db.keysBroken && FileKeysHealthy(old(db.entries), db.broken) ==> instance.files == left)
      ensures old(instance) == null && boot.BootFails? ==>
                && r == Failed(BootFailure)
                && instance == null && !isContainerReady && bootPromise == null
                && fs.fileTree == []
      ensures old(instance) == null && boot.Boots? ==>
                && r == Ok
                && instance != null && fresh(instance) && BootedFrom(instance, boot, db)
                && isContainerReady && bootPromise == instance
      ensures old(Valid()) ==> Valid()
    {
      var wc := instance;
      if wc != null {
        ClearRuntime(wc);
      }
      fs.ClearProjectStorage(db);
      if !db.keysBroken && FileKeysHealthy(old(db.entries), db.broken) {
        ClearedStoreEmpty(old(db.entries), db.broken);
      }
      serverUrl := None;
      isServerRunning := false;
      if wc != null {
        MountFiles(wc, db);
      } else {
        bootPromise := null;
        r := Initialize(db, fs, boot, listing);
        if r.Failed? {
          return;
        }
      }
      fs.LoadFileTree(instance, listing);
      r := Ok;
    }
  }
}
