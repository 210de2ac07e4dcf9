/** src/utils/fileSystem.ts: mounting the stored project files into a booted
    runtime. */
module FileSystem {
  import opened Strings
  import opened Storage
  import opened Runtime

  /** The `currentPath` the parent-segment loop has built after `n` segments:
      "/" and the segment, for each of the first `n`. */
  function ParentPrefix(parts: seq<string>, n: nat): string
    requires n <= |parts|
  {
    if n == 0 then "" else ParentPrefix(parts, n - 1) + "/" + parts[n - 1]
  }

  /** The `filesToMount` record built from the stored files: one entry per
      stored path, holding `{file: {contents}}` with the stored content. The
      inner loop over parent segments only builds `currentPath`, which nothing
      reads, so it leaves the record alone. */
  method BuildMountMap(stored: map<string, string>) returns (filesToMount: map<string, MountEntry>)
    ensures filesToMount.Keys == stored.Keys
    ensures forall p :: p in stored ==> filesToMount[p] == MountedFile(stored[p])
  {
    filesToMount := map[];
    var pending := stored.Keys;
    while pending != {}
      invariant pending <= stored.Keys
      invariant filesToMount.Keys == stored.Keys - pending
      invariant forall p :: p in filesToMount ==> filesToMount[p] == MountedFile(stored[p])
      decreases pending
    {
      var filePath :| filePath in pending;
      pending := pending - {filePath};
      var parts := Segments(filePath);
      var currentPath := "";
      var i := 0;
      // Builds the path of each parent directory in turn; the record does
      // not depend on it, since the mount creates the parents itself.
      while i < |parts| - 1
        invariant 0 <= i <= |parts|
        invariant currentPath == ParentPrefix(parts, i)
        decreases |parts| - i
      {
        currentPath := currentPath + "/" + parts[i];
        i := i + 1;
      }
      filesToMount := filesToMount[filePath := MountedFile(stored[filePath])];
    }
  }

  /** A mount record built from `stored` mounts exactly `stored`. */
  lemma MountedBack(stored: map<string, string>, tree: map<string, MountEntry>)
    requires tree.Keys == stored.Keys
    requires forall p :: p in stored ==> tree[p] == MountedFile(stored[p])
    ensures MountedFiles(tree) == stored
  {
  }

  /** Overlaying `added` on `before`, where every added entry agrees with
      `all`, keeps every old path and takes each entry from one of the two. */
  lemma OverlaySources(before: map<string, string>, added: map<string, string>, all: map<string, string>)
    requires forall p :: p in added ==> p in all && all[p] == added[p]
    ensures before.Keys <= (before + added).Keys
    ensures forall p :: p in before + added ==>
              (p in all && (before + added)[p] == all[p]) || (p in before && (before + added)[p] == before[p])
  {
  }

  /** `mountFiles(instance)`: mounts the stored files (an empty tree when
      there are none). When the mount throws, an empty mount is attempted and
      any error is swallowed, so it never throws. Every file it adds is a
      stored file with its stored content, and without store failures the
      runtime ends up holding all of them. */
  method MountFiles(rt: WebContainer, db: Idb)
    modifies rt`files
    ensures rt.mountBroken ==> rt.files == old(rt.files)
    ensures old(rt.files).Keys <= rt.files.Keys
    ensures forall p :: p in rt.files ==>
              (p in StoredFiles(db.entries) && rt.files[p] == StoredFiles(db.entries)[p]) ||
              (p in old(rt.files) && rt.files[p] == old(rt.files)[p])
    ensures !rt.mountBroken && !db.keysBroken && FileKeysHealthy(db.entries, db.broken) ==>
              rt.files == old(rt.files) + StoredFiles(db.entries)
  {
    ghost var before := rt.files;
    var storedFiles := GetAllStoredFiles(db);
    ghost var all := StoredFiles(db.entries);
    forall p | p in storedFiles
      ensures p in all && all[p] == storedFiles[p]
    {
      KeyRoundTrip(p);
    }
    var filesToMount: map<string, MountEntry>;
    if |storedFiles| > 0 {
      filesToMount := BuildMountMap(storedFiles);
    } else {
      filesToMount := map[];
    }
    MountedBack(storedFiles, filesToMount);
    var ok := rt.Mount(filesToMount);
    if ok {
      OverlaySources(before, storedFiles, all);
    } else {
      // the catch: try an empty mount, swallow its error too
      var _ := rt.Mount(map[]);
    }
  }
}
