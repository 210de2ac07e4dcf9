/** The browser key-value store (IndexedDB through idb-keyval) and the
    `file:`-namespaced view of it in src/utils/storage.ts.

    The store is an object whose `entries` the functions read and change.
    Which of its calls throw is part of its state: `get`, `set` and `del` throw
    on the keys in `broken`, and `keys()` throws when `keysBroken` holds. */
module Storage {
  import opened Strings
  import opened Outcomes

  const Prefix: string := "file:"

  /** An IndexedDB key: a string, or one of the other key kinds (number, date,
      array, binary), which the file view skips. */
  datatype Key = Text(text: string) | NonText(id: int)

  /** `getStorageKey(filePath)`. */
  function StorageKey(path: string): string {
    Prefix + path
  }

  /** A key that names a file: a string key starting with the prefix. */
  predicate IsFileKey(k: Key) {
    k.Text? && StartsWith(k.text, Prefix)
  }

  /** `key.substring(STORAGE_PREFIX.length)`. */
  function PathOf(k: Key): string
    requires IsFileKey(k)
  {
    k.text[|Prefix|..]
  }

  /** The storage key of a path is a file key, and stripping the prefix gives
      the path back. */
  lemma KeyRoundTrip(path: string)
    ensures IsFileKey(Text(StorageKey(path)))
    ensures PathOf(Text(StorageKey(path))) == path
  {
    assert (Prefix + path)[..|Prefix|] == Prefix;
  }

  /** Every file key is the storage key of the path it carries. */
  lemma FileKeyRoundTrip(k: Key)
    requires IsFileKey(k)
    ensures k == Text(StorageKey(PathOf(k)))
  {
    assert k.text == k.text[..|Prefix|] + k.text[|Prefix|..];
  }

  /** Two paths share a storage key only if they are the same path. */
  lemma StorageKeyInjective(p: string, q: string)
    requires StorageKey(p) == StorageKey(q)
    ensures p == q
  {
    KeyRoundTrip(p);
    KeyRoundTrip(q);
  }

  /** The file entries of a store, prefix stripped, leaving out keys whose
      value is `undefined`. */
  function StoredFiles(entries: map<Key, Option<string>>): (files: map<string, string>)
    ensures forall p :: p in files ==> Text(StorageKey(p)) in entries && entries[Text(StorageKey(p))] == Some(files[p])
    ensures forall k :: k in entries && IsFileKey(k) && entries[k].Some? ==> PathOf(k) in files
  {
    FileKeysDetermined(entries);
    map k | k in entries && IsFileKey(k) && entries[k].Some? :: PathOf(k) := entries[k].value
  }

  lemma FileKeysDetermined(entries: map<Key, Option<string>>)
    ensures forall k1, k2 :: k1 in entries && k2 in entries && IsFileKey(k1) && IsFileKey(k2) && PathOf(k1) == PathOf(k2) ==> k1 == k2
    ensures forall k :: k in entries && IsFileKey(k) ==> Text(StorageKey(PathOf(k))) == k
  {
    forall k | k in entries && IsFileKey(k)
      ensures Text(StorageKey(PathOf(k))) == k
    {
      FileKeyRoundTrip(k);
    }
  }

  /** No file key of the store makes `get` or `del` throw. */
  predicate FileKeysHealthy(entries: map<Key, Option<string>>, broken: set<Key>) {
    forall k :: k in entries && IsFileKey(k) ==> k !in broken
  }

  /** The store after a clear: every file key that could be deleted is gone,
      every other key keeps its value. */
  function WithoutFileKeys(entries: map<Key, Option<string>>, broken: set<Key>): (r: map<Key, Option<string>>)
    ensures forall k :: k in r ==> k in entries && r[k] == entries[k]
    ensures forall k :: k in entries && !IsFileKey(k) ==> k in r
    ensures forall k :: k in entries && IsFileKey(k) ==> (k in r <==> k in broken)
  {
    map k | k in entries && (!IsFileKey(k) || k in broken) :: entries[k]
  }

  class Idb {
    var entries: map<Key, Option<string>>
    const broken: set<Key>
    const keysBroken: bool

    constructor (entries: map<Key, Option<string>>, broken: set<Key>, keysBroken: bool)
      ensures this.entries == entries && this.broken == broken && this.keysBroken == keysBroken
    {
      this.entries := entries;
      this.broken := broken;
      this.keysBroken := keysBroken;
    }
  }

  /** `getFileFromStorage(filePath)`: the stored value, or `undefined` when the
      key is missing, holds `undefined`, or `get` throws (the error is logged
      and swallowed). */
  function GetFileFromStorage(db: Idb, path: string): (r: Option<string>)
    reads db
    ensures r.Some? ==> Text(StorageKey(path)) in db.entries && db.entries[Text(StorageKey(path))] == r
    ensures r.Some? <==> path in StoredFiles(db.entries) && Text(StorageKey(path)) !in db.broken
  {
    var k := Text(StorageKey(path));
    KeyRoundTrip(path);
    if k in db.broken || k !in db.entries then None else db.entries[k]
  }

  /** `saveFileToStorage(filePath, content)`: on success a following read
      returns `content`; when `set` throws the store is unchanged and the
      error is rethrown. */
  method SaveFileToStorage(db: Idb, path: string, content: string) returns (r: Outcome)
    modifies db`entries
    ensures r == (if Text(StorageKey(path)) in db.broken then Failed(StorageFailure) else Ok)
    ensures r.Ok? ==> db.entries == old(db.entries)[Text(StorageKey(path)) := Some(content)]
    ensures r.Ok? ==> GetFileFromStorage(db, path) == Some(content)
    ensures r.Failed? ==> db.entries == old(db.entries)
  {
    var k := Text(StorageKey(path));
    if k in db.broken {
      return Failed(StorageFailure);
    }
    db.entries := db.entries[k := Some(content)];
    return Ok;
  }

  /** `deleteFileFromStorage(filePath)`: on success a following read returns
      `undefined`; when `del` throws the store is unchanged and the error is
      rethrown. */
  method DeleteFileFromStorage(db: Idb, path: string) returns (r: Outcome)
    modifies db`entries
    ensures r == (if Text(StorageKey(path)) in db.broken then Failed(StorageFailure) else Ok)
    ensures r.Ok? ==> db.entries == old(db.entries) - {Text(StorageKey(path))}
    ensures r.Ok? ==> GetFileFromStorage(db, path) == None
    ensures r.Failed? ==> db.entries == old(db.entries)
  {
    var k := Text(StorageKey(path));
    if k in db.broken {
      return Failed(StorageFailure);
    }
    db.entries := db.entries - {k};
    return Ok;
  }

  /** `getAllStoredFiles()`: walks the keys in the order `keys()` yields them
      (any order here), keeping the string keys with the prefix, stripping it
      and skipping `undefined` values. It never throws: when `keys()` throws
      the result is empty, and when a `get` throws the walk stops and the
      files collected so far are returned. So every returned path, prefixed
      again, is a key of the store holding the returned content; and without
      failures the result is exactly the store's file entries. */
  method GetAllStoredFiles(db: Idb) returns (files: map<string, string>)
    ensures forall p :: p in files ==> Text(StorageKey(p)) in db.entries && db.entries[Text(StorageKey(p))] == Some(files[p])
    ensures db.keysBroken ==> files == map[]
    ensures !db.keysBroken && FileKeysHealthy(db.entries, db.broken) ==> files == StoredFiles(db.entries)
  {
    files := map[];
    if db.keysBroken {
      return;
    }
    var remaining := db.entries.Keys;
    while remaining != {}
      invariant remaining <= db.entries.Keys
      invariant forall p :: p in files ==> Text(StorageKey(p)) in db.entries && db.entries[Text(StorageKey(p))] == Some(files[p])
      invariant forall k :: k in db.entries && k !in remaining && IsFileKey(k) && db.entries[k].Some? ==> PathOf(k) in files
      decreases remaining
    {
      var key :| key in remaining;
      remaining := remaining - {key};
      if key.Text? && StartsWith(key.text, Prefix) {
        if key in db.broken {
          // `get` threw: the catch keeps what was collected
          return;
        }
        var content := db.entries[key];
        if content.Some? {
          FileKeyRoundTrip(key);
          files := files[PathOf(key) := content.value];
        }
      }
    }
    StoredFilesExact(db.entries, files);
  }

  /** A map that holds only file entries of the store, and all of them, is
      the store's file view. */
  lemma StoredFilesExact(entries: map<Key, Option<string>>, files: map<string, string>)
    requires forall p :: p in files ==> Text(StorageKey(p)) in entries && entries[Text(StorageKey(p))] == Some(files[p])
    requires forall k :: k in entries && IsFileKey(k) && entries[k].Some? ==> PathOf(k) in files
    ensures files == StoredFiles(entries)
  {
    var stored := StoredFiles(entries);
    forall p | p in files
      ensures p in stored && stored[p] == files[p]
    {
      KeyRoundTrip(p);
    }
  }

  /** `clearAllStoredFiles()`: deletes every file key in parallel; a `del`
      that throws leaves its key, and when `keys()` throws nothing is deleted.
      All errors are swallowed, and keys that are not file keys are never
      touched. */
  method ClearAllStoredFiles(db: Idb)
    modifies db`entries
    ensures db.keysBroken ==> db.entries == old(db.entries)
    ensures !db.keysBroken ==> db.entries == WithoutFileKeys(old(db.entries), db.broken)
  {
    if db.keysBroken {
      return;
    }
    var fileKeys := set k | k in db.entries && IsFileKey(k);
    var pending := fileKeys;
    while pending != {}
      invariant pending <= fileKeys
      invariant db.entries == map k | k in old(db.entries) && !(k in fileKeys - pending && k !in db.broken) :: old(db.entries)[k]
      decreases pending
    {
      var key :| key in pending;
      pending := pending - {key};
      if key !in db.broken {
        db.entries := db.entries - {key};
      }
    }
  }
}
