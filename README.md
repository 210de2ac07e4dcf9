# ZenLab core in Dafny

ZenLab is a browser IDE. It edits a project inside a WebContainer (an
in-browser Node runtime with its own filesystem) and persists every file in
IndexedDB. This project models the bookkeeping that keeps three layers in
step:

- the `file:`-prefixed view of the key-value store;
- the runtime filesystem, with the file tree loaded from it and the store's
  content cache;
- the editor's open tabs.

It also proves what each operation promises.

Modules, one per source file, plus three for the foreign parts:

| module | models |
|---|---|
| `Outcomes` | `Option`, and the outcome of an operation that can throw (`Ok` or `Failed(reason)`) |
| `Strings` | the JavaScript string operations used: `startsWith`, `includes`, `indexOf`/`lastIndexOf`, `replace(/\/\//g, '/')`, `trim`, `toLowerCase`, `split('/')`, and an order on names |
| `Storage` | `src/utils/storage.ts` over an IndexedDB object `Idb` whose `entries` change. Which keys make `get`/`set`/`del` throw, and whether `keys()` throws, is part of its state. |
| `Runtime` | the WebContainer filesystem as the core uses it. It is a class with a file map and a directory set; which paths throw, and whether `mount` throws, is part of its state. |
| `FileSystem` | `src/utils/fileSystem.ts` (`mountFiles`) |
| `FileTree` | `FileNode` and the recursive `directoryTree` walk of `src/store/fileStore.ts` |
| `FileStore` | the store in `src/store/fileStore.ts`, a class with `fileTree`, `currentFile`, `fileContents` and `isLoading` |
| `WebContainerStore` | `initializeWebContainer` and `reset` of `src/store/webContainerStore.ts`. The module-level boot promise is a field. |
| `FileExplorer` | `filterTree`, the new-item form and refresh of `FileExplorer.tsx` |
| `FileTreeItem` | the row component: click, rename, delete |
| `Editor` | the open tabs of `Editor.tsx`, a class with `openFiles` and `activeFile` |

Things the browser or a foreign library decides become parameters:

- what `WebContainer.boot()` yields (a `BootResult`);
- the directory listings `readdir` returns while the tree is walked (`listing`,
  `None` when the walk throws or times out);
- the answer to `confirm`.

A thrown error is an `Outcome` that says which layer failed. Loops whose
order the source leaves to `Object.keys`, `keys()` or `readdir('/')` pick
their next element with `:|`, so every proof holds for any order.

## Model

| member | source | states |
|---|---|---|
| Storage.KeyRoundTrip | src/utils/storage.ts:3-7 | The storage key of a path is a prefixed string key, and stripping the prefix gives the path back. |
| Storage.FileKeyRoundTrip | src/utils/storage.ts:41-42 | Every prefixed string key is the storage key of the path its suffix names. |
| Storage.StorageKeyInjective | src/utils/storage.ts:5-7 | Distinct paths never share a storage key. |
| Storage.FileKeysDetermined | src/utils/storage.ts:41-45 | Two file keys carrying the same path are the same key, so the file view is well defined. |
| Storage.StoredFiles | src/utils/storage.ts:39-47 | In the file view of the store, each path, prefixed again, is a key holding that path's content. Every file key with a defined value appears. |
| Storage.WithoutFileKeys | src/utils/storage.ts:57-59 | After a clear, only keys that were in the store remain, with their values. Every non-file key survives; a file key survives exactly when its delete fails. |
| Storage.GetFileFromStorage | src/utils/storage.ts:18-25 | The read answers with the stored value exactly when the path is a stored file whose key does not fail; otherwise it is `undefined`. It never throws. |
| Storage.SaveFileToStorage | src/utils/storage.ts:9-16 | On success the key holds the content and a later read returns it. A failing `set` leaves the store unchanged and is rethrown. |
| Storage.DeleteFileFromStorage | src/utils/storage.ts:27-34 | On success the key is gone and a later read is `undefined`. A failing `del` leaves the store unchanged and is rethrown. |
| Storage.GetAllStoredFiles | src/utils/storage.ts:36-53 | Every returned path, prefixed again, is a key holding the returned content. A throwing `keys()` gives `{}`. Without failures the result is exactly the file view. |
| Storage.StoredFilesExact | src/utils/storage.ts:39-48 | A map holding only file entries of the store, and all of them, is the store's file view. |
| Storage.ClearAllStoredFiles | src/utils/storage.ts:55-64 | Exactly the deletable file keys are removed and every other key is untouched; when `keys()` throws nothing changes, and no error escapes. |
| FileSystem.BuildMountMap | src/utils/fileSystem.ts:11-23 | The mount record has exactly the stored paths as keys, each holding `{file: {contents}}` with the stored content. The parent-segment loop leaves it alone. |
| FileSystem.MountedBack | src/utils/fileSystem.ts:22-24 | The record built from the stored files mounts exactly those files. |
| FileSystem.OverlaySources | src/utils/fileSystem.ts:24 | Overlaying mounted files keeps every path the runtime had, and each path afterwards holds either the mounted content or its old content. |
| FileSystem.MountFiles | src/utils/fileSystem.ts:4-42 | A throwing mount leaves the files as they were; it never throws. The runtime keeps every file it had. Each file it holds afterwards is a stored file with its stored content, or a file it already had. Without failures it gains all stored files. |
| FileTree.JoinRoot | src/store/fileStore.ts:56 | A child of `/` gets the path `/name`. |
| FileTree.JoinNormalised | src/store/fileStore.ts:56 | Below a normalised parent, a child's path is the parent, `/` and the name. |
| FileTree.NodeLeTotal | src/store/fileStore.ts:74-79 | The sort comparator orders any two nodes. |
| FileTree.NodeLeTransitive | src/store/fileStore.ts:74-79 | The comparator is transitive: directories first, then names in order. |
| FileTree.Insert | src/store/fileStore.ts:74 | Inserting into a level adds exactly that node (as a multiset). |
| FileTree.SortNodes | src/store/fileStore.ts:74 | Sorting a level permutes it. |
| FileTree.InsertSorted | src/store/fileStore.ts:74-79 | Inserting into a sorted level keeps it sorted. |
| FileTree.SortNodesSorted | src/store/fileStore.ts:74-79 | A sorted level is in comparator order (directories before files, names ordered within each group) and is a permutation of its input. |
| FileTree.ToNodes | src/store/fileStore.ts:54-72 | There is one node per listed entry, in listing order, each built from its entry. |
| FileTree.DirectoryTreeLevel | src/store/fileStore.ts:46-80 | Each level is a sorted permutation of the nodes built from the listed entries. Each node is a file or a directory as its entry says, and has the entry's name and the joined path. |
| FileTree.DirectoryTreeWellFormed | src/store/fileStore.ts:46-83 | At every depth the built tree is sorted, and every node's path is its parent's path joined with its name. |
| FileStore.LoadedTreeWellFormed | src/store/fileStore.ts:82-100 | Whatever `loadFileTree` stores is a well-formed tree, the empty tree of the failure path included. |
| FileStore.Evicted | src/store/fileStore.ts:219-228 | The deleted path leaves the cache, and for a directory every key below it too. Every other entry stays with its content, and nothing is added. |
| FileStore.MoveEntry | src/store/fileStore.ts:273-278 | The cached entry of the old path moves to the new path and the old key is gone. Other keys keep their content; with no old entry the cache is unchanged. |
| FileStore.VisitPartway | src/store/fileStore.ts:281-287 | One step of the re-prefixing loop moves a key below the old path to its re-rooted key and leaves any other key alone. |
| FileStore.PartwayDone | src/store/fileStore.ts:279-289 | Once every key has been visited, the cache has moved exactly as the runtime moves its files. |
| FileStore.EvictCache | src/store/fileStore.ts:219-229 | The eviction loop, in any key order, computes `Evicted`. |
| FileStore.MoveCache | src/store/fileStore.ts:273-289 | For a file the loop computes `MoveEntry`. For a directory, when the paths do not overlap, it moves the cache exactly as the runtime's `rename` moves files, in any key order. A directory renamed onto itself loses its cached subtree, exactly as `Evicted` deletes it. |
| FileStore.SaveOutcome | src/store/fileStore.ts:145-161 | A save succeeds exactly when there is an instance, the runtime can write the path and the path's storage key does not fail. |
| FileStore.CacheAfterRead | src/store/fileStore.ts:107-143 | A read either leaves the cache as it was or, for an uncached path, adds exactly that path with the content the read returns. |
| FileStore.Store.constructor | src/store/fileStore.ts:29-33 | The store starts with no tree, no selection, an empty cache and no load running. |
| FileStore.Store.LoadFileTree | src/store/fileStore.ts:35-101 | While a load runs nothing happens. Otherwise the tree becomes the walk from `/`, or `[]` without an instance or on failure or timeout, and the loading flag ends false. |
| FileStore.Store.SetCurrentFile | src/store/fileStore.ts:103-105 | The selection becomes the given path. |
| FileStore.Store.GetFileContent | src/store/fileStore.ts:107-143 | A cached path is answered from the cache alone. Otherwise the runtime, then storage; the first that has the file is cached and returned, else `''` with the cache unchanged; the cache afterwards is `CacheAfterRead`. It never throws. |
| FileStore.Store.SaveFile | src/store/fileStore.ts:145-161 | The save fails with no instance or a failing runtime write, leaving storage and cache as they were. A storage failure leaves the cache as it was. On success the runtime, storage and cache all hold the content. |
| FileStore.Store.SaveThenRead | src/store/fileStore.ts:145-161 | A successful save followed by `getFileContent` returns the saved content. |
| FileStore.Store.CreateFile | src/store/fileStore.ts:163-177 | An empty file is written to the runtime, then to storage, then the tree is reloaded. The first failure stops the rest and is rethrown. |
| FileStore.Store.CreateDirectory | src/store/fileStore.ts:179-193 | The directory is made in the runtime only, then the tree is reloaded. Storage is not touched. |
| FileStore.Store.DeleteFileOrDirectory | src/store/fileStore.ts:195-237 | The runtime removes the path, recursively for a directory. Only a file's storage entry is deleted. The selection is cleared only when it is the path, or lies below a deleted directory. The cache is `Evicted`. |
| FileStore.Store.RenameFileOrDirectory | src/store/fileStore.ts:239-297 | The runtime moves the subtree. Storage is migrated only when the old path was a readable file. The selection follows only an exact match. The cache moves by `MoveEntry` for a file. For a directory it moves by the runtime's move when the paths differ, and loses the subtree (`Evicted`) when they are equal. So a rename onto the same path drops the stored file and its cache entries, as the source's save-then-delete does. |
| FileStore.Store.FollowRename | src/store/fileStore.ts:260-289 | After the runtime's rename, a file's stored content moves to the new key, and the first storage failure stops the rest. Then the selection follows an exact match, the cache moves and the tree is reloaded. The cache move is `MoveEntry` for a file; for a directory it is the runtime's move when the paths do not overlap, and `Evicted` when they are equal. |
| FileStore.Store.ClearProjectStorage | src/store/fileStore.ts:301-306 | Stored files are cleared as `clearAllStoredFiles` does. The cache ends empty, the selection null and the tree empty. |
| Runtime.MoveUnderAt | src/store/fileStore.ts:258 | After a move, a path holds its origin's content when it lies under the target and its origin existed. Otherwise it holds its own entry, unless it lay under the source. |
| Runtime.MoveUnderLeaves | src/store/fileStore.ts:258 | After a move between non-overlapping paths, nothing is left under the source. |
| Runtime.MoveUnderCarries | src/store/fileStore.ts:258 | A move carries every path under the source to its re-rooted path, with its content. |
| Runtime.MoveUnderKeeps | src/store/fileStore.ts:258 | A move keeps every path under neither end, with its content. |
| Runtime.RerootBack | src/store/fileStore.ts:283 | Re-rooting back undoes re-rooting. |
| Runtime.RerootUnder | src/store/fileStore.ts:283 | A re-rooted path lies under the new root. |
| Runtime.RerootLeaves | src/store/fileStore.ts:282-283 | Between non-overlapping paths, a re-rooted key is no longer under the old path, so the loop never moves it twice. |
| Runtime.SlashPrefixesDisjoint | src/store/fileStore.ts:282 | A key below one of two non-overlapping paths is not below the other. |
| Runtime.TopName | src/store/webContainerStore.ts:48 | The top-level entry name of an absolute path holds no slash. |
| Runtime.UnderTopName | src/store/webContainerStore.ts:48-52 | An absolute path lies under `/name` exactly when `name` is its top-level entry. |
| Runtime.TopNameUnder | src/store/webContainerStore.ts:48-52 | An absolute path lies under `/` + its top-level name. |
| Runtime.UnderNamesTop | src/store/webContainerStore.ts:48-52 | A path under `/name` is absolute with top-level name `name`. |
| Runtime.WebContainer.constructor | src/store/webContainerStore.ts:101-104 | A freshly booted runtime has an empty filesystem. |
| Runtime.WebContainer.ReadRoot | src/store/webContainerStore.ts:48 | Environment assumption: `readdir('/')` lists the top-level name of every path, or throws. |
| Runtime.WebContainer.ReadFile | src/store/fileStore.ts:125 | Environment assumption: `readFile` returns a readable file's content and throws otherwise. |
| Runtime.WebContainer.WriteFile | src/store/fileStore.ts:151 | Environment assumption: `writeFile` succeeds exactly on a path that is not broken, not a directory and whose parent is a directory, and then sets exactly that path's content. |
| Runtime.WebContainer.Mkdir | src/store/fileStore.ts:185 | Environment assumption: recursive `mkdir` succeeds exactly on a path that is not broken, not a file and not below a file, and then adds exactly that directory. |
| Runtime.WebContainer.Rm | src/store/fileStore.ts:201 | Environment assumption: a successful `rm` removes the path, and everything under it when recursive. |
| Runtime.WebContainer.Rename | src/store/fileStore.ts:258 | Environment assumption: `rename` succeeds exactly when neither path is broken, the source exists and is not an ancestor of the target, the target's parent is a directory, and the target is the source itself, or a non-directory for a file, or neither a file nor a non-empty directory for a directory. It then moves every file and directory under the source to the target. |
| Runtime.RenameNoClash | src/store/fileStore.ts:258 | A rename the runtime accepts between distinct paths never moves a path below itself or onto one of its ancestors. |
| Runtime.FileOntoDirectoryRefused | src/store/fileStore.ts:258 | A file is never renamed onto a directory, even one that exists only because something lies below it. |
| Runtime.WebContainer.Mount | src/utils/fileSystem.ts:24 | Environment assumption: a successful `mount` overlays the record's files, each flat key read as a path. |
| Strings.IndexOf | src/components/FileExplorer/FileTreeItem.tsx:65 | `indexOf` returns the first index holding the character, or -1. |
| Strings.LastIndexOf | src/components/FileExplorer/FileTreeItem.tsx:65 | `lastIndexOf` returns the last index holding the character, or -1. |
| Strings.StartsWithTransitive | src/store/fileStore.ts:282 | Starting with a string that starts with a prefix means starting with that prefix. |
| Strings.StartsWithLonger | src/store/fileStore.ts:282 | A string starting with `prefix + tail` starts with `prefix`. |
| Strings.CollapseSlashes | src/store/fileStore.ts:56 | Collapsing `//` never lengthens a path and keeps a leading slash. |
| Strings.CollapseIdentity | src/store/fileStore.ts:56 | Collapsing leaves a path with no `//` unchanged. |
| Strings.JoinNoDoubleSlash | src/store/fileStore.ts:56 | Gluing a name without slashes behind a normalised parent and `/` creates no `//`. |
| Strings.TrimStart | src/components/FileExplorer/FileTreeItem.tsx:63 | Only leading white space is removed, and all of it. |
| Strings.TrimEnd | src/components/FileExplorer/FileTreeItem.tsx:63 | Only trailing white space is removed, and all of it. |
| Strings.Trim | src/components/FileExplorer/FileTreeItem.tsx:63 | `trim()` is empty exactly for a blank string, and otherwise starts and ends with a non-space. |
| Strings.LowerChar | src/components/FileExplorer/FileExplorer.tsx:235 | Upper-case ASCII letters map to lower case; every other character is kept. |
| Strings.Lower | src/components/FileExplorer/FileExplorer.tsx:235 | `toLowerCase` keeps the length and lowers each character in place. |
| Strings.LexLeTotal | src/store/fileStore.ts:76 | The name order relates any two names. |
| Strings.LexLeTransitive | src/store/fileStore.ts:76 | The name order is transitive. |
| WebContainerStore.ClearedFiles | src/store/webContainerStore.ts:47-57 | The clear keeps only files it had, with their contents. It keeps every relative path, and every path in `.`, `..` or an entry whose `rm` throws. |
| WebContainerStore.ClearedDirs | src/store/webContainerStore.ts:47-57 | The clear keeps only directories it had, and every relative one. |
| WebContainerStore.UnderTopEntry | src/store/webContainerStore.ts:52 | `rm('/' + entry, {recursive})` removes exactly the absolute paths whose top-level entry is `entry`. |
| WebContainerStore.RemoveNothing | src/store/webContainerStore.ts:52 | Removing a path under which nothing lies leaves files and directories unchanged. |
| WebContainerStore.ClearStep | src/store/webContainerStore.ts:51-52 | Removing one removable root entry advances the loop's invariant by that entry. |
| WebContainerStore.ClearSkip | src/store/webContainerStore.ts:50-55 | Skipping `.` or `..`, or an entry whose `rm` throws, leaves what remains unchanged. |
| WebContainerStore.TopNameSegment | src/store/webContainerStore.ts:48-49 | Every listed root entry is a single path segment. |
| WebContainerStore.ClearDone | src/store/webContainerStore.ts:48-57 | After every listed root entry has been visited, what remains is `ClearedFiles` and `ClearedDirs`. |
| WebContainerStore.ClearLeavesOnlyFailures | src/store/webContainerStore.ts:47-61 | After the clear, every remaining top-level entry is `.`, `..` or one whose removal throws. |
| WebContainerStore.ClearRuntime | src/store/webContainerStore.ts:38-62 | Every root entry except `.` and `..` is removed recursively, in any order, and a failing entry is skipped. A failing `readdir` leaves everything as it was. No error escapes. |
| WebContainerStore.ClearedStoreEmpty | src/store/webContainerStore.ts:64-76 | When every file key can be deleted, the store holds no file after the clear, so the remount mounts nothing. |
| WebContainerStore.Store.constructor | src/store/webContainerStore.ts:20-27 | The store starts with no instance, not ready, no server and no boot promise. |
| WebContainerStore.Store.Initialize | src/store/webContainerStore.ts:87-137 | When already ready with an instance, nothing changes. A failed boot clears instance, readiness, server state and promise and is rethrown. A successful boot sets the instance, mounts the stored files, sets readiness, then loads the tree. |
| WebContainerStore.Store.Reset | src/store/webContainerStore.ts:29-85 | The runtime root is cleared; then storage, cache, selection and tree are cleared and the server state reset. With an instance the store is remounted into it; without one the promise is dropped and the runtime reboots. The tree is then reloaded. |
| FileExplorer.Kept | src/components/FileExplorer/FileExplorer.tsx:237-249 | A file is kept, unchanged, exactly when its lower-cased name contains the text. A directory is kept, with its children filtered, exactly when it matches or some child survives. |
| FileExplorer.FilterLevel | src/components/FileExplorer/FileExplorer.tsx:236-251 | The filtered level is never longer than its input and is an order-preserving subsequence of it. |
| FileExplorer.Filter | src/components/FileExplorer/FileExplorer.tsx:233-252 | An empty text returns the nodes unchanged; otherwise the result is an order-preserving subsequence. |
| FileExplorer.EmbedsSelf | src/components/FileExplorer/FileExplorer.tsx:234 | A level is an order-preserving subsequence of itself. |
| FileExplorer.FilterLevelAppend | src/components/FileExplorer/FileExplorer.tsx:236-251 | The reduce over a concatenation is the concatenation of the reduces. |
| FileExplorer.FilterLevelAt | src/components/FileExplorer/FileExplorer.tsx:236-251 | The node at each position contributes exactly what `Kept` gives, between what the nodes before and after it give. |
| FileExplorer.FilterLevelFiles | src/components/FileExplorer/FileExplorer.tsx:237-243 | A file appears in the filtered level exactly when it is in the level and its name matches. |
| FileExplorer.FilterLevelIdempotent | src/components/FileExplorer/FileExplorer.tsx:236-251 | Filtering a filtered level again with the same text changes nothing. |
| FileExplorer.KeptIdempotent | src/components/FileExplorer/FileExplorer.tsx:237-248 | Filtering what one node contributes, with the same text, changes nothing. |
| FileExplorer.FilterIdempotent | src/components/FileExplorer/FileExplorer.tsx:233-252 | `filterTree` is idempotent. |
| FileExplorer.FilterCaseInsensitive | src/components/FileExplorer/FileExplorer.tsx:235 | Texts that lower-case alike filter alike. |
| FileExplorer.NewItemPathIsChildPath | src/components/FileExplorer/FileExplorer.tsx:217 | For a name without slashes, the new item's path is the path the tree walk gives a child of that name in the creation directory. |
| FileExplorer.NewItemPathAbsolute | src/components/FileExplorer/FileExplorer.tsx:217 | Under an absolute creation path the new item's path is absolute. |
| FileExplorer.NewItemRequest | src/components/FileExplorer/FileExplorer.tsx:212-223 | A blank name creates nothing. Otherwise `createFile` or `createDirectory`, by kind, is called at the new item's path, built from the untrimmed name. |
| FileExplorer.Explorer.constructor | src/components/FileExplorer/FileExplorer.tsx:26-28 | The form starts closed, with an empty name and creation path `/`. |
| FileExplorer.Explorer.CreateNew | src/components/FileExplorer/FileExplorer.tsx:50-54 | Opening the form records the kind and the path and empties the name. |
| FileExplorer.Explorer.SubmitNewItem | src/components/FileExplorer/FileExplorer.tsx:212-231 | The request of `NewItemRequest` is issued with the store's effects. A file create writes only the runtime's files and storage, and a folder create only its directories; then the tree is reloaded and the loading flag is kept. The form closes whatever the outcome, and a non-blank name is cleared. |
| FileExplorer.Explorer.Refresh | src/components/FileExplorer/FileExplorer.tsx:44-48 | The tree is reloaded only when no load is running. |
| FileTreeItem.RenamePathSibling | src/components/FileExplorer/FileTreeItem.tsx:65-68 | Renaming a node of a built tree gives the path a sibling with the new name would have, so a top-level `/x` becomes `/` plus the new name. |
| FileTreeItem.RenameRequest | src/components/FileExplorer/FileTreeItem.tsx:62-68 | A rename is issued exactly when renaming, with a trimmed name that is neither empty nor the node's own name; it targets the parent path plus the trimmed name. |
| FileTreeItem.Item.constructor | src/components/FileExplorer/FileTreeItem.tsx:17-21 | A row starts expanded only at depth 0 of an open explorer, not renaming, holding the node's name. |
| FileTreeItem.Item.Click | src/components/FileExplorer/FileTreeItem.tsx:37-45 | With the explorer collapsed only a file is selected. Otherwise the node is selected, and only a directory toggles. |
| FileTreeItem.Item.StartRename | src/components/FileExplorer/FileTreeItem.tsx:54-59 | Renaming starts with the node's name and hides the actions. |
| FileTreeItem.Item.RenameSubmit | src/components/FileExplorer/FileTreeItem.tsx:61-76 | `RenameRequest`'s rename is issued. Its outcome and effects are those of `renameFileOrDirectory`: the runtime's move of files and directories, the storage migration, the selection, the cache move and the tree reload. The cache move covers a rename onto the node's own path too, which the new name `/b` for the node at `/a/b` produces. Renaming mode ends in every case, and the field reverts to the node's name only on failure. |
| FileTreeItem.Item.Delete | src/components/FileExplorer/FileTreeItem.tsx:78-89 | Nothing is deleted without confirmation. With it, the node is deleted, recursively exactly when it is a directory, with all of `deleteFileOrDirectory`'s effects: the runtime's files and directories, storage, selection, cache and the tree reload. A failure is swallowed. Only the actions menu of the row changes. |
| Editor.FindNode | src/components/Editor/Editor.tsx:46-56 | `findNodeInTree` finds a node with the path exactly when one exists at any depth. |
| Editor.FileExistsFinds | src/components/Editor/Editor.tsx:242-249 | `checkFileExists` agrees with `findNodeInTree`. |
| Editor.FindOpen | src/components/Editor/Editor.tsx:133 | `find` returns an open session with the path, or nothing when none is open. |
| Editor.IndexOfPath | src/components/Editor/Editor.tsx:142 | `findIndex` returns the first index with the path, or -1. |
| Editor.Keep | src/components/Editor/Editor.tsx:137 | `filter` never lengthens the sessions. |
| Editor.KeepMembers | src/components/Editor/Editor.tsx:137 | `filter` keeps exactly the sessions that pass. |
| Editor.KeepNothingDropped | src/components/Editor/Editor.tsx:259 | A filter that drops nothing returns its input. |
| Editor.KeepDistinct | src/components/Editor/Editor.tsx:257 | Filtering sessions with distinct paths keeps them distinct. |
| Editor.KeepShape | src/components/Editor/Editor.tsx:257-259 | Both facts above together. |
| Editor.KeepAppend | src/components/Editor/Editor.tsx:137 | Filtering a concatenation filters each part. |
| Editor.KeepAll | src/components/Editor/Editor.tsx:137 | A filter that every session passes changes nothing. |
| Editor.OthersKept | src/components/Editor/Editor.tsx:137 | Every session but the closed one passes the close filter. |
| Editor.KeepAllBut | src/components/Editor/Editor.tsx:137 | Dropping exactly one session keeps the others around it, in order. |
| Editor.WithoutAt | src/components/Editor/Editor.tsx:137 | Closing the session at index i removes exactly that session, and the others keep their order. |
| Editor.UpdateAt | src/components/Editor/Editor.tsx:101-105 | The update changes the sessions with the path and no others; no session moves. |
| Editor.NextActiveNeighbour | src/components/Editor/Editor.tsx:140-146 | After closing the active tab at index i, the tab that was at i-1 becomes active, or the new first tab when i = 0. |
| Editor.Extension | src/components/Editor/Editor.tsx:178 | The extension is the text after the last dot, or the whole name, and holds no dot. |
| Editor.GetLanguage | src/components/Editor/Editor.tsx:176-207 | A null or empty name gives `plaintext`. Otherwise the result is a listed language, and `plaintext` for an unlisted extension. |
| Editor.ExtensionLower | src/components/Editor/Editor.tsx:178 | The extension of a lower-cased name is the lower-cased extension. |
| Editor.GetLanguageByExtension | src/components/Editor/Editor.tsx:176-207 | The language depends only on the lower-cased extension. |
| Editor.GetLanguageIgnoresCase | src/components/Editor/Editor.tsx:176-207 | A name and its lower-cased form get the same language. |
| Editor.CloseKeepsValid | src/components/Editor/Editor.tsx:131-152 | Closing a tab keeps the tabs valid (distinct, non-empty paths, the active one open), the new active tab included. |
| Editor.SameSessionsOpen | src/components/Editor/Editor.tsx:101-105 | Updating sessions in place keeps the same paths open. |
| Editor.Sessions.constructor | src/components/Editor/Editor.tsx:18-20 | The editor starts with no tabs and no active tab. |
| Editor.Sessions.LoadOrActivateFile | src/components/Editor/Editor.tsx:45-97 | A selection that is not a file of the tree is ignored. An open file only becomes active, with no append and no fetch. Any other file is read through the store and appended once, unmodified and active; the store's cache is filled as `CacheAfterRead` says. Tab validity is kept. |
| Editor.Sessions.HandleEditorChange | src/components/Editor/Editor.tsx:99-113 | Only the active session's text changes, and a save is scheduled. Every `originalContent` and every other session stays. |
| Editor.Sessions.HandleSave | src/components/Editor/Editor.tsx:115-129 | The outcome is `SaveOutcome`. The session is marked saving; on success it records the saved text as its original, on failure it only clears the mark, and its edited text is never touched. The runtime, storage and cache change exactly as `saveFile` changes them, and on success storage reads back the text. |
| Editor.Sessions.FireSaveTimer | src/components/Editor/Editor.tsx:106-112 | When the debounce fires, the active session is saved exactly when it is modified. The save is the active session's edited text: the session is marked and then recorded as saved or unmarked, and the runtime, storage and cache change as `saveFile` changes them. Otherwise nothing changes. |
| Editor.Sessions.HandleCloseFile | src/components/Editor/Editor.tsx:131-152 | A modified session's edited text is saved first, with the runtime, storage and cache changing as `saveFile` changes them; an unmodified one saves nothing. Exactly that path is removed. A closed active tab passes to its neighbour, or to nothing, in the editor and in the store; otherwise the active tab stays. |
| Editor.Sessions.Reconcile | src/components/Editor/Editor.tsx:241-267 | The sessions whose path is anywhere in the tree are kept, in order. A dropped active tab passes to the first survivor or to nothing. When nothing was dropped, nothing changes. |

## Left out

- The WebContainer and idb-keyval libraries are modelled only through the calls the core makes. Their failures are fixed per path or key, not per call. A path counts as a directory when it was made one or when something lies below it, as the runtime creates parent directories on mount and on recursive `mkdir`.
- `Runtime.WebContainer.Mount`: the mount record's keys are flat paths such as `/a/b`, and the runtime is taken to create the directories above them. `mountFiles` relies on that behaviour of the library, and its "gains all stored files" depends on it.
- The `Runtime.WebContainer` methods state what the library is assumed to do; they do not model code of this repository.
- `FileStore.Store.LoadFileTree`: the directory listings the walk reads are a parameter. They are not derived from the runtime's file map, so no lemma relates the loaded tree to the runtime's files. The tree shown after a create, delete, rename or reset is meant to mirror the runtime, but no property here states that.
- Concurrency is left out: the 15-second `Promise.race` timeout (a failed walk), the parallel `Promise.all` walk (sequential here) and the parallel deletes of `clearAllStoredFiles` (each key on its own).
- `WebContainerStore.Store.Initialize`: calls run one at a time, so a boot promise found set has already settled. The claim that at most one boot happens across interleaved callers is not made; the source does not guarantee it, because readiness is only set after mounting.
- `Editor.Sessions.HandleCloseFile`: the source does not await the save before closing; the model completes the save first.
- `Editor.Sessions.FireSaveTimer`: the 1000 ms debounce is a single pending slot, and wall-clock firing is left out.
- `Editor.Sessions.LoadOrActivateFile`: `getFileContent` never throws, so the source's load-failure branch (clearing the selection) cannot run. It has no counterpart, and the loading flag is a transient.
- `Strings.LexLe`: `localeCompare` is replaced by code-unit order, a total order on names; locale collation is left out.
- `Strings.Lower`: `toLowerCase` is modelled on ASCII letters only.
- `FileStore.MoveCache`: when one path lies strictly below the other, the directory cache is not stated. A moved key can then land on a key the loop has yet to visit, so the result depends on key order. The runtime's `rename` refuses both cases (`Runtime.RenameNoClash`), so no successful rename reaches them.
- `FileStore.Store.FollowRename`: states the directory cache only for non-overlapping or equal paths, for the same reason. `FileStore.Store.RenameFileOrDirectory` covers every rename the runtime accepts.
- `FileStore.Store.RenameFileOrDirectory`: a `$` pattern in the new path is taken literally rather than as a `String.prototype.replace` substitution.
- `Strings.Segments` has no contract: `mountFiles` splits the path only to build a `currentPath` that nothing reads.
- `reset`: `terminal.clear()` and the removal of the `server-ready` and `error` listeners are left out. So is the `server-ready` handler that sets the server URL.
- Terminal, `runCommand`, `installDependencies`, the dev server, the preview, export, the app shell, the theme store, the template import and icon choice are UI or process work and are not part of this model.
