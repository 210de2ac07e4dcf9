/** The WebContainer runtime filesystem, a foreign library seen through the
    calls the core makes: `readFile`, `writeFile`, `mkdir`, `rm`, `rename`,
    `readdir('/')` and `mount`. Its state is a map from absolute file paths to
    contents and a set of directory paths; which calls throw is part of its
    state (`broken` paths, `mountBroken`). */
module Runtime {
  import opened Strings
  import opened Outcomes

  /** `p` is `root` or lies below it. */
  predicate Under(p: string, root: string) {
    p == root || StartsWith(p, root + "/")
  }

  /** The path `p`, which lies under `from`, moved under `to`:
      `p.replace(from, to)` for a `p` that starts with `from`. */
  function Reroot(p: string, from: string, to: string): string
    requires StartsWith(p, from)
  {
    to + p[|from|..]
  }

  /** A file map with everything under `root` removed. */
  function RemoveUnder(files: map<string, string>, root: string): map<string, string> {
    map p | p in files && !Under(p, root) :: files[p]
  }

  /** The paths a move creates: every path under `from`, moved under `to`. */
  function MovedPaths(files: map<string, string>, from: string, to: string): set<string> {
    set p | p in files && Under(p, from) :: Reroot(p, from, to)
  }

  /** A file map with everything under `from` moved under `to`; moved entries
      overwrite what was at their new path. A path under `to` whose origin
      under `from` is present takes the origin's contents. */
  function MoveUnder(files: map<string, string>, from: string, to: string): map<string, string> {
    forall x | x in MovedPaths(files, from, to)
      ensures Under(x, to) && Reroot(x, to, from) in files
    {
      var p :| p in files && Under(p, from) && Reroot(p, from, to) == x;
      RerootUnder(p, from, to);
      RerootBack(p, from, to);
    }
    map x | x in (set p | p in files && !Under(p, from)) + MovedPaths(files, from, to) ::
      if Under(x, to) && Reroot(x, to, from) in files then files[Reroot(x, to, from)] else files[x]
  }

  /** Moving `from` to `to` cannot land a moved path back under `from`: the
      two differ and neither lies below the other. */
  predicate NoClash(from: string, to: string) {
    from != to && !StartsWith(to, from + "/") && !StartsWith(from, to + "/")
  }

  /** A path below `from`, moved under `to`, is no longer under `from`. */
  lemma RerootLeaves(p: string, from: string, to: string)
    requires NoClash(from, to)
    requires StartsWith(p, from + "/")
    ensures !Under(Reroot(p, from, to), from)
  {
    var t := Reroot(p, from, to);
    var rest := p[|from|..];
    assert rest[0] == '/';
    assert t == to + rest;
    if |from| < |to| {
      assert t[..|from| + 1] == to[..|from| + 1];
    } else if |from| == |to| {
      assert t[..|from|] == to;
    } else {
      assert t[..|to| + 1] == to + "/";
      assert from[..|to| + 1] != to + "/";
    }
  }

  /** A moved path lies under `to`. */
  lemma RerootUnder(p: string, from: string, to: string)
    requires Under(p, from)
    ensures Under(Reroot(p, from, to), to)
  {
    var t := Reroot(p, from, to);
    if p != from {
      assert p[|from|] == '/';
      assert t[..|to| + 1] == to + "/";
    } else {
      assert t == to;
    }
  }

  /** Moving back undoes a move. */
  lemma RerootBack(p: string, from: string, to: string)
    requires StartsWith(p, from)
    ensures StartsWith(Reroot(p, from, to), to)
    ensures Reroot(Reroot(p, from, to), to, from) == p
  {
    var t := Reroot(p, from, to);
    assert t[..|to|] == to;
    assert t[|to|..] == p[|from|..];
    assert p == from + p[|from|..];
  }

  /** What a move holds at one path: a path under `to` whose origin under
      `from` was present holds the origin's contents; any other path keeps
      its own entry unless it lay under `from`. */
  lemma MoveUnderAt(files: map<string, string>, from: string, to: string, x: string)
    ensures x in MoveUnder(files, from, to) <==>
              (x in files && !Under(x, from)) || (Under(x, to) && Reroot(x, to, from) in files)
    ensures x in MoveUnder(files, from, to) ==>
              MoveUnder(files, from, to)[x] ==
                if Under(x, to) && Reroot(x, to, from) in files then files[Reroot(x, to, from)] else files[x]
  {
    if Under(x, to) && Reroot(x, to, from) in files {
      var q := Reroot(x, to, from);
      RerootUnder(x, to, from);
      RerootBack(x, to, from);
      assert x in MovedPaths(files, from, to);
    }
    if x in MovedPaths(files, from, to) {
      var p :| p in files && Under(p, from) && Reroot(p, from, to) == x;
      RerootUnder(p, from, to);
      RerootBack(p, from, to);
    }
  }

  /** Two slash-terminated prefixes of the same path are nested, which
      `NoClash` rules out. */
  lemma SlashPrefixesDisjoint(x: string, from: string, to: string)
    requires NoClash(from, to)
    requires StartsWith(x, from + "/")
    ensures !StartsWith(x, to + "/") && x != to
  {
    assert x[..|from| + 1] == from + "/";
    if |from| < |to| {
      assert to[..|from| + 1] != from + "/";
    } else if |from| == |to| {
      assert x[..|from|] == from;
    } else {
      assert from[..|to| + 1] != to + "/";
    }
  }

  /** After a move nothing is left under `from`. */
  lemma MoveUnderLeaves(files: map<string, string>, from: string, to: string)
    requires NoClash(from, to)
    ensures forall k :: k in MoveUnder(files, from, to) ==> !Under(k, from)
  {
    forall k | k in MoveUnder(files, from, to)
      ensures !Under(k, from)
    {
      MoveUnderAt(files, from, to, k);
      if k != to && Under(k, to) {
        SlashPrefixesDisjoint(k, to, from);
      }
    }
  }

  /** A move carries every path under `from` to the same place under `to`,
      with its contents. */
  lemma MoveUnderCarries(files: map<string, string>, from: string, to: string)
    ensures forall p :: p in files && Under(p, from) ==>
              Reroot(p, from, to) in MoveUnder(files, from, to) && MoveUnder(files, from, to)[Reroot(p, from, to)] == files[p]
  {
    forall p | p in files && Under(p, from)
      ensures Reroot(p, from, to) in MoveUnder(files, from, to) && MoveUnder(files, from, to)[Reroot(p, from, to)] == files[p]
    {
      RerootUnder(p, from, to);
      RerootBack(p, from, to);
      MoveUnderAt(files, from, to, Reroot(p, from, to));
    }
  }

  /** A move keeps every path under neither `from` nor `to`, with its
      contents. */
  lemma MoveUnderKeeps(files: map<string, string>, from: string, to: string)
    ensures forall k :: k in files && !Under(k, from) && !Under(k, to) ==>
              k in MoveUnder(files, from, to) && MoveUnder(files, from, to)[k] == files[k]
  {
    forall k | k in files && !Under(k, from) && !Under(k, to)
      ensures k in MoveUnder(files, from, to) && MoveUnder(files, from, to)[k] == files[k]
    {
      MoveUnderAt(files, from, to, k);
    }
  }

  /** The name of the top-level entry an absolute path lies in: the text
      after the leading slash up to the next slash. */
  function TopName(p: string): (name: string)
    requires |p| > 0 && p[0] == '/'
    ensures '/' !in name
  {
    var rest := p[1..];
    var i := IndexOf(rest, '/');
    if i < 0 then rest else rest[..i]
  }

  /** An absolute path lies under "/" + its top-level name, and under no
      other top-level entry. */
  lemma UnderTopName(p: string, name: string)
    requires |p| > 0 && p[0] == '/'
    requires '/' !in name
    ensures Under(p, "/" + name) <==> TopName(p) == name
  {
    if TopName(p) == name {
      TopNameUnder(p);
    }
    if Under(p, "/" + name) {
      UnderNamesTop(p, name);
    }
  }

  /** An absolute path lies under "/" + its top-level name. */
  lemma TopNameUnder(p: string)
    requires |p| > 0 && p[0] == '/'
    ensures Under(p, "/" + TopName(p))
  {
    var rest := p[1..];
    var i := IndexOf(rest, '/');
    assert p == "/" + rest;
    if i >= 0 {
      assert rest == rest[..i] + "/" + rest[i + 1..];
      assert p == ("/" + rest[..i] + "/") + rest[i + 1..];
    }
  }

  /** A path under "/" + `name`, for a single segment `name`, has that
      top-level name. */
  lemma UnderNamesTop(p: string, name: string)
    requires '/' !in name
    requires Under(p, "/" + name)
    ensures |p| > 0 && p[0] == '/' && TopName(p) == name
  {
    if p != "/" + name {
      assert StartsWith(p, "/" + name + "/");
      var rest := p[1..];
      var prefix := "/" + name + "/";
      assert p[..|prefix|] == prefix;
      assert p[0] == prefix[0];
      assert rest[|name|] == prefix[|name| + 1];
      assert rest[..|name|] == prefix[1..|name| + 1] == name;
      assert IndexOf(rest, '/') == |name| by {
        assert forall j :: 0 <= j < |name| ==> rest[j] == name[j];
      }
    } else {
      assert p[1..] == name;
    }
  }

  /** The top-level entry names of a set of paths. */
  function TopNames(paths: set<string>): set<string> {
    set p | p in paths && |p| > 0 && p[0] == '/' :: TopName(p)
  }

  /** The files left by `rm(path, {recursive})`: everything under `path`
      when recursive, otherwise the one file. */
  function RemovedFiles(files: map<string, string>, path: string, recursive: bool): map<string, string> {
    if recursive then RemoveUnder(files, path) else files - {path}
  }

  /** The directories left by `rm(path, {recursive})`. */
  function RemovedDirs(dirs: set<string>, path: string, recursive: bool): set<string> {
    if recursive then set d | d in dirs && !Under(d, path) else dirs
  }

  /** The directories after `rename(from, to)`: those under `from` moved
      under `to`. */
  function MovedDirs(dirs: set<string>, from: string, to: string): set<string> {
    (set d | d in dirs && !Under(d, from)) + (set d | d in dirs && Under(d, from) :: Reroot(d, from, to))
  }

  datatype MountEntry = MountedFile(contents: string)

  /** The file map a mount adds: each key to the contents of its file. */
  function MountedFiles(tree: map<string, MountEntry>): map<string, string> {
    map p | p in tree :: tree[p].contents
  }

  class WebContainer {
    var files: map<string, string>
    var dirs: set<string>
    const broken: set<string>
    const mountBroken: bool

    /** A freshly booted runtime: an empty filesystem. */
    constructor (broken: set<string>, mountBroken: bool)
      ensures files == map[] && dirs == {}
      ensures this.broken == broken && this.mountBroken == mountBroken
    {
      files := map[];
      dirs := {};
      this.broken := broken;
      this.mountBroken := mountBroken;
    }

    /** A path exists when a file or directory is that path or lies below
        it: the directories above a file need not be listed in `dirs`. */
    predicate Exists(path: string)
      reads this
    {
      exists p :: p in files.Keys + dirs && Under(p, path)
    }

    /** `readFile(path, 'utf-8')` succeeds exactly on readable files. */
    predicate CanRead(path: string)
      reads this
    {
      path in files && path !in broken
    }

    /** Some file or directory lies strictly below the path. */
    predicate HasEntriesBelow(path: string)
      reads this
    {
      exists p :: p in files.Keys + dirs && StartsWith(p, path + "/")
    }

    /** A path is a directory when it was made one or when some file or
        directory lies below it. */
    predicate IsDirectory(path: string)
      reads this
    {
      path in dirs || HasEntriesBelow(path)
    }

    /** The directory a path would be written into exists: the path has no
        parent above the root, or its parent is a directory. */
    predicate ParentIsDirectory(path: string)
      reads this
    {
      var i := LastIndexOf(path, '/');
      i <= 0 || IsDirectory(path[..i])
    }

    /** `writeFile(path, text)` fails on a broken path, on a directory and
        when the parent directory is missing. */
    predicate CanWrite(path: string)
      reads this
    {
      path !in broken && !IsDirectory(path) && ParentIsDirectory(path)
    }

    /** `rm(path, {recursive})` fails on a broken or missing path; without
        `recursive` it removes only a file. */
    predicate CanRemove(path: string, recursive: bool)
      reads this
    {
      path !in broken && (if recursive then Exists(path) else path in files)
    }

    /** `rename(from, to)` fails on broken or missing paths, when moving a
        path under itself and when the target's parent is not a directory.
        Renaming a path onto itself does nothing; otherwise a file may
        replace a file but not a directory, and a directory may replace only
        an empty directory. */
    predicate CanRename(from: string, to: string)
      reads this
    {
      && from !in broken && to !in broken && Exists(from) && !StartsWith(to, from + "/")
      && ParentIsDirectory(to)
      && (from == to || TargetAccepts(from, to))
    }

    /** The target of a rename can take the moved path: a file lands on a
        path that is not a directory; a directory lands on a path that is
        neither a file nor a directory with entries. */
    predicate TargetAccepts(from: string, to: string)
      reads this
    {
      if from in files then !IsDirectory(to) else to !in files && !HasEntriesBelow(to)
    }

    /** The names `readdir('/')` lists: the top-level entry of every path. */
    function RootNames(): set<string>
      reads this
    {
      TopNames(files.Keys + dirs)
    }

    /** `readdir('/')`: the root's entry names, or a failure when the root
        is broken. */
    method ReadRoot() returns (r: Option<set<string>>)
      ensures r == if "/" in broken then None else Some(RootNames())
    {
      if "/" in broken {
        return None;
      }
      return Some(RootNames());
    }

    method ReadFile(path: string) returns (r: Option<string>)
      ensures r == if CanRead(path) then Some(files[path]) else None
    {
      r := if CanRead(path) then Some(files[path]) else None;
    }

    method WriteFile(path: string, content: string) returns (ok: bool)
      modifies this`files
      ensures ok == old(CanWrite(path))
      ensures files == if ok then old(files)[path := content] else old(files)
    {
      ok := CanWrite(path);
      if ok {
        files := files[path := content];
      }
    }

    /** `mkdir(path, {recursive: true})` fails on a broken path, on a file
        and below a file; missing parents are created. */
    predicate CanMkdir(path: string)
      reads this
    {
      path !in broken && path !in files && !exists q :: q in files && StartsWith(path, q + "/")
    }

    method Mkdir(path: string) returns (ok: bool)
      modifies this`dirs
      ensures ok == old(CanMkdir(path))
      ensures dirs == if ok then old(dirs) + {path} else old(dirs)
    {
      ok := CanMkdir(path);
      if ok {
        dirs := dirs + {path};
      }
    }

    method Rm(path: string, recursive: bool) returns (ok: bool)
      modifies this`files, this`dirs
      ensures ok == old(CanRemove(path, recursive))
      ensures files == if ok then RemovedFiles(old(files), path, recursive) else old(files)
      ensures dirs == if ok then RemovedDirs(old(dirs), path, recursive) else old(dirs)
    {
      ok := CanRemove(path, recursive);
      if ok {
        files := RemovedFiles(files, path, recursive);
        dirs := RemovedDirs(dirs, path, recursive);
      }
    }

    method Rename(from: string, to: string) returns (ok: bool)
      modifies this`files, this`dirs
      ensures ok == old(CanRename(from, to))
      ensures files == if ok then MoveUnder(old(files), from, to) else old(files)
      ensures dirs == if ok then MovedDirs(old(dirs), from, to) else old(dirs)
    {
      ok := CanRename(from, to);
      if ok {
        files := MoveUnder(files, from, to);
        dirs := MovedDirs(dirs, from, to);
      }
    }

    /** `mount(tree)`: adds the tree's files, overwriting existing ones. */
    method Mount(tree: map<string, MountEntry>) returns (ok: bool)
      modifies this`files
      ensures ok == !mountBroken
      ensures files == if ok then old(files) + MountedFiles(tree) else old(files)
    {
      ok := !mountBroken;
      if ok {
        files := files + MountedFiles(tree);
      }
    }
  }

  /** A file cannot be renamed onto a directory, even one that exists only
      because something lies below it. */
  lemma FileOntoDirectoryRefused(rt: WebContainer, from: string, to: string, below: string)
    requires from in rt.files && from != to
    requires below in rt.files && StartsWith(below, to + "/")
    ensures !rt.CanRename(from, to)
  {
    assert rt.HasEntriesBelow(to);
  }

  /** A rename the runtime accepts between two distinct paths never moves a
      path below itself or onto one of its ancestors: the ancestor would be
      a directory holding the source. */
  lemma RenameNoClash(rt: WebContainer, from: string, to: string)
    requires rt.CanRename(from, to) && from != to
    ensures NoClash(from, to)
  {
    if StartsWith(from, to + "/") {
      var p :| p in rt.files.Keys + rt.dirs && Under(p, from);
      if p != from {
        StartsWithLonger(p, from, "/");
        assert StartsWith(from + "/", from);
        StartsWithTransitive(p, from, to + "/");
      }
      assert rt.HasEntriesBelow(to);
    }
  }
}
