/** src/components/Editor/Editor.tsx: the editor's open tabs. Each tab is a
    session holding the file's path, the text being edited and the text last
    loaded or saved; one tab is active. The tabs follow the store's
    selection and its tree, and save through the store.

    The 1000 ms save debounce is a single pending slot: an edit fills it and
    `FireSaveTimer` stands for the timer going off. */
module Editor {
  import opened Strings
  import opened Outcomes
  import opened Storage
  import opened Runtime
  import opened FileTree
  import FileStore

  datatype OpenFile = OpenFile(path: string, content: string, originalContent: string, isSaving: bool)

  /** `isModified(file)`: no session is unmodified; otherwise the edited
      text differs from the loaded or saved one. */
  predicate IsModified(file: Option<OpenFile>) {
    file.Some? && file.value.content != file.value.originalContent
  }

  // ---------------------------------------------------------------------------
  // Looking paths up in the tree

  /** The path names a node anywhere in the tree, file or directory. */
  predicate InTree(path: string, tree: seq<FileNode>)
    decreases tree
  {
    exists i :: 0 <= i < |tree| && (tree[i].path == path || (tree[i].Directory? && InTree(path, tree[i].children)))
  }

  /** `findNodeInTree(path, tree)`: the first node with the path, depth
      first, each node before its children and its children before its
      later siblings. */
  function FindNode(path: string, tree: seq<FileNode>): (r: Option<FileNode>)
    ensures r.Some? ==> r.value.path == path
    ensures r.Some? <==> InTree(path, tree)
    decreases tree
  {
    if tree == [] then None
    else if tree[0].path == path then Some(tree[0])
    else
      var inChild := if tree[0].Directory? then FindNode(path, tree[0].children) else None;
      var later := FindNode(path, tree[1..]);
      assert InTree(path, tree) <==> (tree[0].Directory? && InTree(path, tree[0].children)) || InTree(path, tree[1..]) by {
        if InTree(path, tree[1..]) {
          var i :| 0 <= i < |tree[1..]| && (tree[1..][i].path == path || (tree[1..][i].Directory? && InTree(path, tree[1..][i].children)));
          assert tree[i + 1] == tree[1..][i];
        }
        if InTree(path, tree) {
          var i :| 0 <= i < |tree| && (tree[i].path == path || (tree[i].Directory? && InTree(path, tree[i].children)));
          if i > 0 {
            assert tree[1..][i - 1] == tree[i];
          }
        }
      }
      if inChild.Some? then inChild else later
  }

  /** `checkFileExists(path, tree)`: some node, at any depth, has the path. */
  function FileExists(path: string, tree: seq<FileNode>): (r: bool)
    decreases tree
  {
    if tree == [] then false
    else if tree[0].path == path then true
    else if tree[0].Directory? && FileExists(path, tree[0].children) then true
    else FileExists(path, tree[1..])
  }

  /** The two tree searches agree: a path exists exactly when it is found. */
  lemma {:induction false} FileExistsFinds(path: string, tree: seq<FileNode>)
    ensures FileExists(path, tree) <==> FindNode(path, tree).Some?
    decreases tree
  {
    if tree != [] && tree[0].path != path {
      if tree[0].Directory? {
        FileExistsFinds(path, tree[0].children);
      }
      FileExistsFinds(path, tree[1..]);
    }
  }

  // ---------------------------------------------------------------------------
  // Sessions as a sequence

  /** No two sessions share a path. */
  predicate DistinctPaths(files: seq<OpenFile>) {
    forall i, j :: 0 <= i < j < |files| ==> files[i].path != files[j].path
  }

  /** Some session has the path. */
  predicate IsOpen(files: seq<OpenFile>, path: string) {
    exists f :: f in files && f.path == path
  }

  /** `openFiles.find(f => f.path === path)`, with a null path matching
      nothing. */
  function FindOpen(files: seq<OpenFile>, path: Option<string>): (r: Option<OpenFile>)
    ensures r.Some? ==> r.value in files && path == Some(r.value.path)
    ensures r.None? ==> path.None? || !IsOpen(files, path.value)
  {
    if files == [] || path.None? then None
    else if files[0].path == path.value then Some(files[0])
    else FindOpen(files[1..], path)
  }

  /** `openFiles.findIndex(f => f.path === path)`. */
  function IndexOfPath(files: seq<OpenFile>, path: string): (r: int)
    ensures -1 <= r < |files|
    ensures r >= 0 ==> files[r].path == path
    ensures forall j :: 0 <= j < |files| && (r < 0 || j < r) ==> files[j].path != path
  {
    if files == [] then -1
    else if files[0].path == path then 0
    else
      var k := IndexOfPath(files[1..], path);
      if k < 0 then -1 else k + 1
  }

  /** `files.filter(keep)`. */
  function Keep(files: seq<OpenFile>, keep: OpenFile -> bool): (r: seq<OpenFile>)
    ensures |r| <= |files|
  {
    if files == [] then []
    else if keep(files[0]) then [files[0]] + Keep(files[1..], keep)
    else Keep(files[1..], keep)
  }

  /** The filter keeps exactly the sessions that pass it. */
  lemma {:induction false} KeepMembers(files: seq<OpenFile>, keep: OpenFile -> bool)
    ensures forall f :: f in Keep(files, keep) <==> f in files && keep(f)
    decreases |files|
  {
    if files != [] {
      KeepMembers(files[1..], keep);
      assert forall f :: f in files <==> f == files[0] || f in files[1..];
    }
  }

  /** A filter that drops nothing returns its input, and a filter of
      sessions with distinct paths has distinct paths. */
  lemma KeepShape(files: seq<OpenFile>, keep: OpenFile -> bool)
    ensures |Keep(files, keep)| == |files| ==> Keep(files, keep) == files
    ensures DistinctPaths(files) ==> DistinctPaths(Keep(files, keep))
  {
    KeepNothingDropped(files, keep);
    if DistinctPaths(files) {
      KeepDistinct(files, keep);
    }
  }

  /** A filter whose result is as long as its input dropped nothing. */
  lemma {:induction false} KeepNothingDropped(files: seq<OpenFile>, keep: OpenFile -> bool)
    ensures |Keep(files, keep)| == |files| ==> Keep(files, keep) == files
    decreases |files|
  {
    if files != [] {
      KeepNothingDropped(files[1..], keep);
    }
  }

  /** A filter of sessions with distinct paths has distinct paths. */
  lemma {:induction false} KeepDistinct(files: seq<OpenFile>, keep: OpenFile -> bool)
    requires DistinctPaths(files)
    ensures DistinctPaths(Keep(files, keep))
    decreases |files|
  {
    if files != [] {
      var rest := Keep(files[1..], keep);
      assert DistinctPaths(files[1..]) by {
        forall i, j | 0 <= i < j < |files[1..]|
          ensures files[1..][i].path != files[1..][j].path
        {
          assert files[1..][i] == files[i + 1] && files[1..][j] == files[j + 1];
        }
      }
      KeepDistinct(files[1..], keep);
      if keep(files[0]) {
        KeepMembers(files[1..], keep);
        forall f | f in rest
          ensures f.path != files[0].path
        {
          var j :| 0 <= j < |files[1..]| && files[1..][j] == f;
          assert files[j + 1] == f;
        }
        var r := [files[0]] + rest;
        forall i, j | 0 <= i < j < |r|
          ensures r[i].path != r[j].path
        {
          assert r[j] == rest[j - 1] && rest[j - 1] in rest;
        }
      }
    }
  }

  /** The filter of a close: every session but the one with `path`. */
  function NotAt(path: string): OpenFile -> bool {
    (f: OpenFile) => f.path != path
  }

  /** The filter of a tree change: the sessions whose path is in `tree`. */
  function Survives(tree: seq<FileNode>): OpenFile -> bool {
    (f: OpenFile) => FileExists(f.path, tree)
  }

  /** Filtering a concatenation filters each part. */
  lemma {:induction false} KeepAppend(a: seq<OpenFile>, b: seq<OpenFile>, keep: OpenFile -> bool)
    ensures Keep(a + b, keep) == Keep(a, keep) + Keep(b, keep)
    decreases |a|
  {
    if a == [] {
      assert a + b == b;
    } else {
      assert (a + b)[0] == a[0] && (a + b)[1..] == a[1..] + b;
      KeepAppend(a[1..], b, keep);
    }
  }

  /** A filter that keeps every session keeps the sequence. */
  lemma {:induction false} KeepAll(files: seq<OpenFile>, keep: OpenFile -> bool)
    requires forall f :: f in files ==> keep(f)
    ensures Keep(files, keep) == files
    decreases |files|
  {
    if files != [] {
      KeepAll(files[1..], keep);
    }
  }

  /** Closing the session at `i` of distinct sessions leaves the others in
      their order. */
  lemma WithoutAt(files: seq<OpenFile>, i: int)
    requires DistinctPaths(files) && 0 <= i < |files|
    ensures Keep(files, NotAt(files[i].path)) == files[..i] + files[i + 1..]
  {
    OnlyAt(files, i);
    OthersKept(files, i);
    SplitAt(files, i);
    KeepAllBut(files[..i], files[i], files[i + 1..], NotAt(files[i].path));
  }

  /** In sessions with distinct paths, only the session at `i` has its path. */
  lemma OnlyAt(files: seq<OpenFile>, i: int)
    requires DistinctPaths(files) && 0 <= i < |files|
    ensures forall j :: 0 <= j < |files| && j != i ==> files[j].path != files[i].path
  {
  }

  /** A sequence is its part before `i`, its element at `i` and the rest. */
  lemma SplitAt(files: seq<OpenFile>, i: int)
    requires 0 <= i < |files|
    ensures files == files[..i] + [files[i]] + files[i + 1..]
  {
  }

  /** Every session but the one at `i` passes the close filter. */
  lemma OthersKept(files: seq<OpenFile>, i: int)
    requires 0 <= i < |files|
    requires forall j :: 0 <= j < |files| && j != i ==> files[j].path != files[i].path
    ensures forall f :: f in files[..i] ==> NotAt(files[i].path)(f)
    ensures forall f :: f in files[i + 1..] ==> NotAt(files[i].path)(f)
  {
    forall f | f in files[..i]
      ensures f.path != files[i].path
    {
      var j :| 0 <= j < i && files[..i][j] == f;
      assert files[j] == f;
    }
    forall f | f in files[i + 1..]
      ensures f.path != files[i].path
    {
      var j :| 0 <= j < |files[i + 1..]| && files[i + 1..][j] == f;
      assert files[i + 1 + j] == f;
    }
  }

  /** Filtering out exactly one session keeps those around it. */
  lemma KeepAllBut(before: seq<OpenFile>, x: OpenFile, after: seq<OpenFile>, keep: OpenFile -> bool)
    requires forall f :: f in before ==> keep(f)
    requires forall f :: f in after ==> keep(f)
    requires !keep(x)
    ensures Keep(before + [x] + after, keep) == before + after
  {
    KeepAll(before, keep);
    KeepAll(after, keep);
    assert Keep([x], keep) == [] by {
      assert [x][1..] == [];
    }
    KeepAppend(before + [x], after, keep);
    KeepAppend(before, [x], keep);
  }

  /** One change made to the session with a given path. */
  datatype Change =
    | SetContent(value: string)
    | SetSaving(flag: bool)
    | Saved(value: string)

  function Apply(c: Change, f: OpenFile): OpenFile {
    match c
    case SetContent(value) => f.(content := value)
    case SetSaving(flag) => f.(isSaving := flag)
    case Saved(value) => f.(originalContent := value, isSaving := false)
  }

  /** `files.map(f => f.path === path ? change(f) : f)`: the sessions with
      the path are changed, the others kept, and no session moves. */
  function UpdateAt(files: seq<OpenFile>, path: string, c: Change): (r: seq<OpenFile>)
    ensures |r| == |files|
    ensures forall i :: 0 <= i < |files| ==> r[i].path == files[i].path
    ensures forall i :: 0 <= i < |files| && files[i].path != path ==> r[i] == files[i]
    ensures forall i :: 0 <= i < |files| && files[i].path == path ==> r[i] == Apply(c, files[i])
  {
    seq(|files|, i requires 0 <= i < |files| => if files[i].path == path then Apply(c, files[i]) else files[i])
  }

  /** The session picked after closing the active one: the tab before it
      (the first when it was first), unless its path is empty, then the
      first tab, unless that path is empty too. */
  function NextActive(remaining: seq<OpenFile>, closedIndex: int): (r: Option<string>)
    requires |remaining| > 0
  {
    var i := if closedIndex > 0 then closedIndex - 1 else 0;
    if i < |remaining| && remaining[i].path != "" then Some(remaining[i].path)
    else if remaining[0].path != "" then Some(remaining[0].path)
    else None
  }

  /** Closing the active tab at index `i` of sessions with distinct,
      non-empty paths activates the tab that was at index i - 1, or the new
      first tab when it was first. */
  lemma NextActiveNeighbour(files: seq<OpenFile>, i: int)
    requires DistinctPaths(files) && 0 <= i < |files| && |files| > 1
    requires forall f :: f in files ==> f.path != ""
    ensures |Keep(files, NotAt(files[i].path))| > 0
    ensures NextActive(Keep(files, NotAt(files[i].path)), i)
            == Some(if i > 0 then files[i - 1].path else files[1].path)
  {
    WithoutAt(files, i);
    var rest := files[..i] + files[i + 1..];
    if i > 0 {
      assert rest[i - 1] == files[i - 1];
      assert files[i - 1] in files;
    } else {
      assert rest[0] == files[1];
      assert files[1] in files;
    }
  }

  // ---------------------------------------------------------------------------
  // getLanguage

  /** `name.split('.').pop()`: the text after the last dot, or the whole
      name when it has none. */
  function Extension(name: string): (ext: string)
    ensures '.' !in ext
    ensures |ext| <= |name| && ext == name[|name| - |ext|..]
    ensures ext == name || name[|name| - |ext| - 1] == '.'
  {
    var i := LastIndexOf(name, '.');
    if i < 0 then name else name[i + 1..]
  }

  /** The editor language for each listed extension. */
  const Languages: map<string, string> := map[
    "js" := "javascript", "jsx" := "javascript",
    "ts" := "typescript", "tsx" := "typescript",
    "json" := "json", "html" := "html", "css" := "css",
    "scss" := "scss", "sass" := "scss", "md" := "markdown",
    "py" := "python", "java" := "java",
    "c" := "c", "h" := "c", "cpp" := "cpp", "hpp" := "cpp",
    "cs" := "csharp", "go" := "go", "php" := "php", "rb" := "ruby",
    "swift" := "swift", "yaml" := "yaml", "yml" := "yaml", "xml" := "xml",
    "sh" := "shell", "dockerfile" := "dockerfile", "gitignore" := "gitignore"
  ]

  /** `getLanguage(filename)`: "plaintext" without a name; otherwise the
      language listed for the lower-cased extension, "plaintext" for an
      unlisted one. */
  function GetLanguage(filename: Option<string>): (lang: string)
    ensures lang == "plaintext" || lang in Languages.Values
    ensures !Truthy(filename) ==> lang == "plaintext"
    ensures Truthy(filename) && Lower(Extension(filename.value)) in Languages ==> lang == Languages[Lower(Extension(filename.value))]
    ensures Truthy(filename) && Lower(Extension(filename.value)) !in Languages ==> lang == "plaintext"
  {
    if !Truthy(filename) then "plaintext"
    else
      var ext := Lower(Extension(filename.value));
      if ext in Languages then Languages[ext] else "plaintext"
  }

  /** Lower-casing keeps every dot where it is, so the extension of the
      lower-cased name is the lower-cased extension. */
  lemma ExtensionLower(name: string)
    ensures Extension(Lower(name)) == Lower(Extension(name))
  {
    var low := Lower(name);
    assert forall j :: 0 <= j < |name| ==> (low[j] == '.' <==> name[j] == '.');
    var i := LastIndexOf(name, '.');
    var k := LastIndexOf(low, '.');
    assert k == i by {
      if k >= 0 {
        assert name[k] == '.';
      }
      if i >= 0 {
        assert low[i] == '.';
      }
    }
    if i >= 0 {
      assert Lower(name[i + 1..]) == low[i + 1..];
    }
  }

  /** The language depends on the name only through its extension, and not
      on the case of its letters. */
  lemma GetLanguageByExtension(a: string, b: string)
    requires a != "" && b != ""
    requires Lower(Extension(a)) == Lower(Extension(b))
    ensures GetLanguage(Some(a)) == GetLanguage(Some(b))
  {
  }

  lemma GetLanguageIgnoresCase(name: string)
    ensures GetLanguage(Some(Lower(name))) == GetLanguage(Some(name))
  {
    ExtensionLower(name);
    LowerIdempotent(Extension(name));
    assert |Lower(name)| == |name|;
  }

  // ---------------------------------------------------------------------------
  // The tabs

  /** Tabs have distinct, non-empty paths, and the active path is one of
      them. */
  predicate SessionsValid(files: seq<OpenFile>, active: Option<string>) {
    && DistinctPaths(files)
    && (forall f :: f in files ==> f.path != "")
    && (active.Some? ==> IsOpen(files, active.value))
  }

  /** Closing `path` keeps the sessions valid, with the active tab moving to
      its neighbour when the closed one was active. */
  lemma CloseKeepsValid(files: seq<OpenFile>, path: string, active: Option<string>)
    requires SessionsValid(files, active)
    ensures var rest := Keep(files, NotAt(path));
            SessionsValid(rest, if active != Some(path) then active
                                else if rest == [] then None
                                else NextActive(rest, IndexOfPath(files, path)))
  {
    var rest := Keep(files, NotAt(path));
    KeepMembers(files, NotAt(path));
    KeepShape(files, NotAt(path));
    if active == Some(path) {
      if rest != [] {
        var k := IndexOfPath(files, path);
        var i := if k > 0 then k - 1 else 0;
        if i < |rest| && rest[i].path != "" {
          assert rest[i] in rest;
        } else {
          assert rest[0] in rest;
        }
      }
    } else if active.Some? {
      var f :| f in files && f.path == active.value;
      assert NotAt(path)(f);
    }
  }

  class Sessions {
    var openFiles: seq<OpenFile>
    var activeFile: Option<string>
    var isLoading: bool
    /** An edit is waiting for the debounce timer. */
    var pendingSave: bool

    constructor ()
      ensures openFiles == [] && activeFile == None && !isLoading && !pendingSave
      ensures Valid()
    {
      openFiles := [];
      activeFile := None;
      isLoading := false;
      pendingSave := false;
    }

    /** The tabs are valid: see `SessionsValid`. */
    predicate Valid()
      reads this
    {
      SessionsValid(openFiles, activeFile)
    }

    /** The effect of a change of the store's selection: a selection that is
        not a file of the tree is ignored; an open file only becomes active;
        any other file is read through the store and appended as a new,
        unmodified, active tab. */
    method LoadOrActivateFile(fs: FileStore.Store, rt: WebContainer?, db: Idb) returns (appended: bool)
      modifies this`openFiles, this`activeFile, this`isLoading, fs`fileContents
      ensures isLoading == (old(isLoading) && !appended)
      ensures var current := old(fs.currentFile);
              !Truthy(current) || FindNode(current.value, fs.fileTree).None? || FindNode(current.value, fs.fileTree).value.Directory? ==>
                !appended && openFiles == old(openFiles) && activeFile == old(activeFile) && fs.fileContents == old(fs.fileContents)
      ensures var current := old(fs.currentFile);
              Truthy(current) && FindNode(current.value, fs.fileTree).Some? && FindNode(current.value, fs.fileTree).value.File? ==>
                && activeFile == current
                && appended == !IsOpen(old(openFiles), current.value)
                && (!appended ==> openFiles == old(openFiles) && fs.fileContents == old(fs.fileContents))
                && (appended ==>
                      var text := FileStore.ReadThrough(old(fs.fileContents), rt, db, current.value);
                      && openFiles == old(openFiles) + [OpenFile(current.value, text, text, false)]
                      && fs.fileContents == FileStore.CacheAfterRead(old(fs.fileContents), rt, db, current.value))
      ensures old(Valid()) ==> Valid()
    {
      appended := false;
      var current := fs.currentFile;
      if !Truthy(current) {
        return;
      }
      var nodeDetails := FindNode(current.value, fs.fileTree);
      if nodeDetails.None? || nodeDetails.value.Directory? {
        return;
      }
      var fileIsAlreadyOpen := FindOpen(openFiles, current).Some?;
      if fileIsAlreadyOpen {
        if activeFile != current {
          activeFile := current;
        }
        return;
      }
      isLoading := true;
      var fileContent := fs.GetFileContent(rt, db, current.value);
      openFiles := openFiles + [OpenFile(current.value, fileContent, fileContent, false)];
      activeFile := current;
      appended := true;
      isLoading := false;
    }

    /** `handleEditorChange(value)`: with an active tab and a value, the
        active session's text becomes the value and a save is scheduled. */
    method HandleEditorChange(value: Option<string>)
      modifies this`openFiles, this`pendingSave
      ensures Truthy(activeFile) && value.Some? ==>
                openFiles == UpdateAt(old(openFiles), activeFile.value, SetContent(value.value)) && pendingSave
      ensures !(Truthy(activeFile) && value.Some?) ==> openFiles == old(openFiles) && pendingSave == old(pendingSave)
      ensures old(Valid()) ==> Valid()
    {
      if !Truthy(activeFile) || value.None? {
        return;
      }
      openFiles := UpdateAt(openFiles, activeFile.value, SetContent(value.value));
      pendingSave := true;
      SameSessionsOpen(old(openFiles), openFiles);
    }

    /** `handleSave(path, value)`: marks the session saving, saves through
        the store, then records the saved text as the loaded one on success,
        or only clears the saving mark on failure (the error is reported and
        swallowed). The edited text is never touched. */
    method HandleSave(fs: FileStore.Store, rt: WebContainer?, db: Idb, path: string, value: string) returns (r: Outcome)
      modifies this`openFiles, rt, db`entries, fs`fileContents
      ensures r == old(FileStore.SaveOutcome(rt, db, path))
      ensures openFiles == UpdateAt(UpdateAt(old(openFiles), path, SetSaving(true)), path, if r.Ok? then Saved(value) else SetSaving(false))
      ensures rt != null ==> rt.dirs == old(rt.dirs)
      ensures rt != null ==> rt.files == if old(rt.CanWrite(path)) then old(rt.files)[path := value] else old(rt.files)
      ensures db.entries == if r.Ok? then old(db.entries)[Text(StorageKey(path)) := Some(value)] else old(db.entries)
      ensures fs.fileContents == if r.Ok? then old(fs.fileContents)[path := value] else old(fs.fileContents)
      ensures r.Ok? ==> GetFileFromStorage(db, path) == Some(value)
      ensures old(Valid()) ==> Valid()
    {
      openFiles := UpdateAt(openFiles, path, SetSaving(true));
      SameSessionsOpen(old(openFiles), openFiles);
      r := fs.SaveFile(rt, db, path, value);
      ghost var marked := openFiles;
      if r.Ok? {
        openFiles := UpdateAt(openFiles, path, Saved(value));
      } else {
        openFiles := UpdateAt(openFiles, path, SetSaving(false));
      }
      SameSessionsOpen(marked, openFiles);
    }

    /** The debounce timer going off: the pending save, if any, saves the
        active session when it is modified. */
    method FireSaveTimer(fs: FileStore.Store, rt: WebContainer?, db: Idb) returns (saved: bool)
      modifies this`openFiles, this`pendingSave, rt, db`entries, fs`fileContents
      ensures !pendingSave
      ensures saved == (old(pendingSave) && IsModified(FindOpen(old(openFiles), activeFile)))
      ensures !saved ==> openFiles == old(openFiles) && unchanged(db) && unchanged(fs) && (rt != null ==> unchanged(rt))
      ensures saved ==>
                var p := activeFile.value;
                var c := FindOpen(old(openFiles), activeFile).value.content;
                var ok := old(FileStore.SaveOutcome(rt, db, p)).Ok?;
                && openFiles == UpdateAt(UpdateAt(old(openFiles), p, SetSaving(true)), p, if ok then Saved(c) else SetSaving(false))
                && db.entries == (if ok then old(db.entries)[Text(StorageKey(p)) := Some(c)] else old(db.entries))
                && fs.fileContents == (if ok then old(fs.fileContents)[p := c] else old(fs.fileContents))
                && (rt != null ==> rt.dirs == old(rt.dirs) && rt.files == if old(rt.CanWrite(p)) then old(rt.files)[p := c] else old(rt.files))
                && (ok ==> GetFileFromStorage(db, p) == Some(c))
      ensures old(Valid()) ==> Valid()
    {
      saved := false;
      if !pendingSave {
        return;
      }
      pendingSave := false;
      var fileToSave := FindOpen(openFiles, activeFile);
      if IsModified(fileToSave) {
        var _ := HandleSave(fs, rt, db, activeFile.value, fileToSave.value.content);
        saved := true;
      }
    }

    /** `handleCloseFile(path)`: a modified session is saved first; the
        session is removed, the others keeping their order; when it was
        active, the neighbour before it (or the new first tab) becomes active
        in the editor and in the store, or nothing when no tab is left. */
    method HandleCloseFile(fs: FileStore.Store, rt: WebContainer?, db: Idb, path: string) returns (saved: bool)
      modifies this`openFiles, this`activeFile, rt, db`entries, fs`fileContents, fs`currentFile
      ensures saved == IsModified(FindOpen(old(openFiles), Some(path)))
      ensures openFiles == Keep(old(openFiles), NotAt(path))
      ensures old(activeFile) != Some(path) ==> activeFile == old(activeFile) && fs.currentFile == old(fs.currentFile)
      ensures old(activeFile) == Some(path) ==>
                && activeFile == (if openFiles == [] then None else NextActive(openFiles, IndexOfPath(old(openFiles), path)))
                && fs.currentFile == activeFile
      ensures !saved ==> unchanged(db) && fs.fileContents == old(fs.fileContents) && (rt != null ==> unchanged(rt))
      ensures saved ==>
                var c := FindOpen(old(openFiles), Some(path)).value.content;
                var ok := old(FileStore.SaveOutcome(rt, db, path)).Ok?;
                && db.entries == (if ok then old(db.entries)[Text(StorageKey(path)) := Some(c)] else old(db.entries))
                && fs.fileContents == (if ok then old(fs.fileContents)[path := c] else old(fs.fileContents))
                && (rt != null ==> rt.dirs == old(rt.dirs) && rt.files == if old(rt.CanWrite(path)) then old(rt.files)[path := c] else old(rt.files))
                && (ok ==> GetFileFromStorage(db, path) == Some(c))
      ensures old(Valid()) ==> Valid()
    {
      var snapshot := openFiles;
      var fileToClose := FindOpen(snapshot, Some(path));
      saved := false;
      if IsModified(fileToClose) {
        var _ := HandleSave(fs, rt, db, path, fileToClose.value.content);
        saved := true;
      }
      var newOpenFiles := Keep(snapshot, NotAt(path));
      openFiles := newOpenFiles;
      if activeFile == Some(path) {
        if |newOpenFiles| > 0 {
          var closedFileIndex := IndexOfPath(snapshot, path);
          var newActivePath := NextActive(newOpenFiles, closedFileIndex);
          activeFile := newActivePath;
          fs.SetCurrentFile(newActivePath);
        } else {
          activeFile := None;
          fs.SetCurrentFile(None);
        }
      }
      if old(Valid()) {
        CloseKeepsValid(snapshot, path, old(activeFile));
      }
    }

    /** The effect of a new tree: the sessions whose path still names a node
        are kept in order; when some were dropped and the active one among
        them, the first survivor becomes active in the editor and the store,
        or nothing when none is left. When none was dropped nothing
        changes. */
    method Reconcile(fs: FileStore.Store)
      modifies this`openFiles, this`activeFile, fs`currentFile
      ensures openFiles == Keep(old(openFiles), Survives(fs.fileTree))
      ensures forall f :: f in openFiles <==> f in old(openFiles) && InTree(f.path, fs.fileTree)
      ensures |openFiles| == |old(openFiles)| ==> activeFile == old(activeFile) && fs.currentFile == old(fs.currentFile)
      ensures |openFiles| < |old(openFiles)| && Truthy(old(activeFile)) && !IsOpen(openFiles, old(activeFile).value) ==>
                && activeFile == (if openFiles != [] && openFiles[0].path != "" then Some(openFiles[0].path) else None)
                && fs.currentFile == activeFile
      ensures !(Truthy(old(activeFile)) && !IsOpen(openFiles, old(activeFile).value)) ==>
                activeFile == old(activeFile) && fs.currentFile == old(fs.currentFile)
      ensures old(Valid()) ==> Valid()
    {
      var tree := fs.fileTree;
      var stillExistingOpenFiles := Keep(openFiles, Survives(tree));
      KeepMembers(openFiles, Survives(tree));
      KeepShape(openFiles, Survives(tree));
      forall f | f in openFiles
        ensures FileExists(f.path, tree) <==> InTree(f.path, tree)
      {
        FileExistsFinds(f.path, tree);
      }
      if |stillExistingOpenFiles| < |openFiles| {
        openFiles := stillExistingOpenFiles;
        if Truthy(activeFile) && FindOpen(stillExistingOpenFiles, activeFile).None? {
          var newActivePath := if |stillExistingOpenFiles| > 0 && stillExistingOpenFiles[0].path != "" then Some(stillExistingOpenFiles[0].path) else None;
          activeFile := newActivePath;
          fs.SetCurrentFile(newActivePath);
          if newActivePath.Some? {
            assert stillExistingOpenFiles[0] in stillExistingOpenFiles;
          }
        }
      }
    }
  }

  /** Sessions changed in place keep their paths, so the same paths are
      open. */
  lemma SameSessionsOpen(a: seq<OpenFile>, b: seq<OpenFile>)
    requires |a| == |b| && forall i :: 0 <= i < |a| ==> a[i].path == b[i].path
    ensures DistinctPaths(a) ==> DistinctPaths(b)
    ensures forall p :: IsOpen(a, p) <==> IsOpen(b, p)
    ensures (forall f :: f in a ==> f.path != "") ==> forall f :: f in b ==> f.path != ""
  {
    forall p
      ensures IsOpen(a, p) <==> IsOpen(b, p)
    {
      if IsOpen(a, p) {
        var f :| f in a && f.path == p;
        var i :| 0 <= i < |a| && a[i] == f;
        assert b[i] in b;
      }
      if IsOpen(b, p) {
        var f :| f in b && f.path == p;
        var i :| 0 <= i < |b| && b[i] == f;
        assert a[i] in a;
      }
    }
    forall f | f in b
      ensures (forall g :: g in a ==> g.path != "") ==> f.path != ""
    {
      var i :| 0 <= i < |b| && b[i] == f;
      assert a[i] in a;
    }
  }
}
