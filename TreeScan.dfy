/**
 * processNode / processFile / processFolder: walk a directory tree and build
 * the status snapshot. The filesystem is a finite tree of entries; hashing a
 * file and looking its hash up in the store are partial maps, a missing key
 * standing for the exception the PHP code catches.
 */
module TreeScan {
  import opened StatusData

  /**
   * A directory entry. `entries` is the order in which the directory iterator
   * yields the children of a directory, the `.` and `..` entries included.
   */
  datatype FsEntry = FsFile(name: string) | FsDir(name: string, entries: seq<FsEntry>)

  /** The two static lists of FileSystemCommand: allowed extensions, skipped folder suffixes. */
  datatype Config = Config(allowedFileTypes: seq<string>, skipFolders: seq<string>)

  /**
   * The data model as the scan uses it: `hashFile` (path to hash) and
   * `getHashStatusAllUsers` (hash to records). A path or hash outside the
   * domain is a call that throws.
   */
  datatype Store = Store(hashFile: map<string, string>, statusAllUsers: map<string, seq<HashRecord>>)

  predicate IsDot(e: FsEntry)
  {
    e.name == "." || e.name == ".."
  }

  /** The real path of entry `name` inside the directory at `dir`. */
  function ChildPath(dir: string, name: string): (p: string)
    ensures Truthy(p)
  {
    var p := dir + "/" + name;
    assert p[|dir|] == '/';
    p
  }

  /** The base name of a path: the text after its last `/`. */
  function Basename(path: string): string
  {
    AfterLast(path, '/')
  }

  /**
   * `pathinfo($file)['extension']`: the part of the base name after its last
   * dot, absent when the base name has no dot.
   */
  function Extension(path: string): (r: Option<string>)
    ensures r.None? <==> '.' !in Basename(path)
    ensures r.Some? ==> '.' !in r.value && '/' !in r.value
  {
    var base := Basename(path);
    if '.' in base then
      AfterLastSuffix(path, '/');
      AfterLastSuffix(base, '.');
      var ext := AfterLast(base, '.');
      assert forall i :: 0 <= i < |ext| ==> ext[i] == base[|base| - |ext| + i];
      Some(ext)
    else None
  }

  /** The extension filter of processFile: no extension, or an allowed one. */
  predicate Allowed(cfg: Config, path: string)
  {
    Extension(path).None? || Extension(path).value in cfg.allowedFileTypes
  }

  /**
   * PHP's `substr($s, -$n)` for `$n >= 0`: the last `$n` characters, the
   * whole string when `$n` exceeds its length, and also the whole string
   * when `$n` is 0, since `-0` is the start offset 0.
   */
  function SubstrFromEnd(s: string, n: nat): string
  {
    if n == 0 || n >= |s| then s else s[|s| - n..]
  }

  /** `substr($file, strlen($skip) * -1) === $skip` */
  predicate SkipMatches(path: string, skip: string)
  {
    SubstrFromEnd(path, |skip|) == skip
  }

  /**
   * The skip test is "ends with" for a non-empty suffix; the empty suffix
   * matches only the empty path.
   */
  lemma SkipMatchesMeaning(path: string, skip: string)
    ensures SkipMatches(path, skip) <==>
      if |skip| == 0 then path == ""
      else |skip| <= |path| && path[|path| - |skip|..] == skip
  {
    if 0 < |skip| && |path| < |skip| {
      assert |SubstrFromEnd(path, |skip|)| != |skip|;
    }
  }

  /** Some configured skip suffix matches `path`. */
  predicate Skipped(cfg: Config, path: string)
  {
    exists j :: 0 <= j < |cfg.skipFolders| && SkipMatches(path, cfg.skipFolders[j])
  }

  /** The synthetic record for a file that could not be hashed or looked up. */
  function UnknownRecord(hash: string, path: string): HashRecord
  {
    HashRecord(hash, "unknown", Some(path))
  }

  /**
   * processFile: None for a file whose extension is not allowed; otherwise the
   * store's records for the file's hash, or one `'unknown'` record when
   * hashing fails, the lookup fails, or the lookup finds nothing.
   */
  function ProcessFile(cfg: Config, store: Store, path: string): (r: Option<seq<HashRecord>>)
    ensures r.None? <==> !Allowed(cfg, path)
    ensures r.Some? ==> |r.value| > 0
  {
    var ext := Extension(path);
    if ext.Some? && ext.value !in cfg.allowedFileTypes then None
    else if path !in store.hashFile then Some([UnknownRecord("empty", path)])
    else
      var hash := store.hashFile[path];
      var data := if hash in store.statusAllUsers then store.statusAllUsers[hash]
                  else [UnknownRecord(hash, path)];
      if |data| == 0 then Some([UnknownRecord(hash, path)]) else Some(data)
  }

  /**
   * processNode: a directory goes to processFolder and yields null or a
   * folder at `path`; a file goes to processFile and yields null exactly
   * when its extension is not allowed, and otherwise a non-empty record list.
   */
  function ProcessNode(cfg: Config, store: Store, e: FsEntry, path: string): (r: Option<Data>)
    ensures e.FsDir? ==> r.None? || (r.value.Folder? && r.value.folder == path)
    ensures e.FsFile? ==> (r.None? <==> !Allowed(cfg, path))
    ensures e.FsFile? && r.Some? ==> r.value.Records? && |r.value.records| > 0
    decreases e, 2, 0
  {
    match e
    case FsFile(_) =>
      (match ProcessFile(cfg, store, path)
       case None => None
       case Some(rs) => Some(Records(rs)))
    case FsDir(_, _) => FolderScan(cfg, store, e, path)
  }

  /** processFolder as a value: pruned, or the folder with its surviving children. */
  function FolderScan(cfg: Config, store: Store, dir: FsEntry, path: string): Option<Data>
    requires dir.FsDir?
    decreases dir, 1, 0
  {
    if Skipped(cfg, path) then None
    else
      var contents := Collect(cfg, store, dir, path, |dir.entries|);
      if |contents| == 0 then None else Some(Folder(path, contents))
  }

  /** The contents array after the first `n` entries of `dir`. */
  function Collect(cfg: Config, store: Store, dir: FsEntry, path: string, n: nat): seq<Data>
    requires dir.FsDir? && n <= |dir.entries|
    decreases dir, 0, n
  {
    if n == 0 then []
    else
      var e := dir.entries[n - 1];
      Collect(cfg, store, dir, path, n - 1) + ChildItems(cfg, store, e, path)
  }

  /** What the entry `e` of the directory at `dir` adds to `$contents`. */
  function ChildItems(cfg: Config, store: Store, e: FsEntry, dir: string): seq<Data>
    decreases e, 3, 0
  {
    if IsDot(e) then []
    else ContentItem(ChildPath(dir, e.name), ProcessNode(cfg, store, e, ChildPath(dir, e.name)))
  }

  /**
   * What one child's result adds to `$contents`: nothing when it is null or
   * empty, a file item wrapping a file's records, a folder's result inlined.
   */
  function ContentItem(childPath: string, result: Option<Data>): seq<Data>
  {
    match result
    case None => []
    case Some(Records(rs)) => if |rs| == 0 then [] else [File(childPath, rs)]
    case Some(d) => [d]
  }

  /**
   * The PHP processFolder: the skip-suffix loop, then the loop over the
   * directory's entries that appends to `$contents`.
   */
  method ProcessFolder(cfg: Config, store: Store, dir: FsEntry, path: string) returns (data: Option<Data>)
    requires dir.FsDir?
    ensures data == FolderScan(cfg, store, dir, path)
  {
    var k := 0;
    while k < |cfg.skipFolders|
      invariant 0 <= k <= |cfg.skipFolders|
      invariant forall j :: 0 <= j < k ==> !SkipMatches(path, cfg.skipFolders[j])
    {
      var skip := cfg.skipFolders[k];
      if SubstrFromEnd(path, |skip|) == skip {
        return None;
      }
      k := k + 1;
    }
    var contents: seq<Data> := [];
    var i := 0;
    while i < |dir.entries|
      invariant 0 <= i <= |dir.entries|
      invariant contents == Collect(cfg, store, dir, path, i)
    {
      var fileInfo := dir.entries[i];
      if !IsDot(fileInfo) {
        var realPath := ChildPath(path, fileInfo.name);
        var result := ProcessNode(cfg, store, fileInfo, realPath);
        if result.Some? && result.value != Records([]) {
          var f := if result.value.Records? then File(realPath, result.value.records) else result.value;
          contents := contents + [f];
        }
      }
      i := i + 1;
    }
    if |contents| == 0 {
      return None;
    }
    data := Some(Folder(path, contents));
  }

  /**
   * The shape of everything a scan produces below a folder: every folder has
   * a truthy path that no skip suffix matches and at least one item; every
   * item is a folder of that shape or a file item with an allowed extension,
   * a truthy path and at least one record.
   */
  predicate WellFormed(cfg: Config, d: Data)
  {
    match d
    case Records(rs) => false
    case File(p, rs) => Truthy(p) && Allowed(cfg, p) && |rs| > 0
    case Folder(p, c) =>
      !Skipped(cfg, p) && Truthy(p) && |c| > 0 &&
      forall i :: 0 <= i < |c| ==> WellFormed(cfg, c[i])
  }

  /** Every item of `c` is well formed. */
  predicate AllWellFormed(cfg: Config, c: seq<Data>)
  {
    forall i :: 0 <= i < |c| ==> WellFormed(cfg, c[i])
  }

  /**
   * What the scan of the entry `e` at `path` may return: nothing, non-empty
   * records of an allowed file, or a well-formed folder for a directory.
   */
  predicate NodeShape(cfg: Config, e: FsEntry, path: string, r: Option<Data>)
  {
    match r
    case None => true
    case Some(d) =>
      (e.FsFile? && d.Records? && |d.records| > 0 && Allowed(cfg, path)) ||
      (e.FsDir? && d.Folder? && d.folder == path && WellFormed(cfg, d))
  }

  /**
   * The scan of any entry has that shape. Hence a pruned directory, a
   * filtered file and an empty directory never appear in the snapshot.
   */
  lemma {:induction false} ScanShape(cfg: Config, store: Store, e: FsEntry, path: string)
    requires Truthy(path)
    ensures NodeShape(cfg, e, path, ProcessNode(cfg, store, e, path))
    decreases e, 2, 0
  {
    if e.FsDir? {
      FolderShape(cfg, store, e, path);
    }
  }

  lemma {:induction false} FolderShape(cfg: Config, store: Store, dir: FsEntry, path: string)
    requires dir.FsDir? && Truthy(path)
    ensures NodeShape(cfg, dir, path, FolderScan(cfg, store, dir, path))
    decreases dir, 1, 0
  {
    if !Skipped(cfg, path) {
      var c := Collect(cfg, store, dir, path, |dir.entries|);
      CollectShape(cfg, store, dir, path, |dir.entries|);
      if |c| > 0 {
        assert WellFormed(cfg, Folder(path, c));
      }
    }
  }

  lemma {:induction false} CollectShape(cfg: Config, store: Store, dir: FsEntry, path: string, n: nat)
    requires dir.FsDir? && n <= |dir.entries|
    ensures AllWellFormed(cfg, Collect(cfg, store, dir, path, n))
    decreases dir, 0, n
  {
    if n > 0 {
      CollectShape(cfg, store, dir, path, n - 1);
      ChildItemsShape(cfg, store, dir.entries[n - 1], path);
      ConcatWellFormed(cfg, Collect(cfg, store, dir, path, n - 1),
                       ChildItems(cfg, store, dir.entries[n - 1], path));
    }
  }

  lemma {:induction false} ChildItemsShape(cfg: Config, store: Store, e: FsEntry, dir: string)
    ensures AllWellFormed(cfg, ChildItems(cfg, store, e, dir))
    decreases e, 3, 0
  {
    if !IsDot(e) {
      var p := ChildPath(dir, e.name);
      ScanShape(cfg, store, e, p);
      ItemShape(cfg, e, p, ProcessNode(cfg, store, e, p));
    }
  }

  lemma ItemShape(cfg: Config, e: FsEntry, p: string, r: Option<Data>)
    requires Truthy(p) && NodeShape(cfg, e, p, r)
    ensures AllWellFormed(cfg, ContentItem(p, r))
  {
  }

  lemma ConcatWellFormed(cfg: Config, a: seq<Data>, b: seq<Data>)
    requires AllWellFormed(cfg, a) && AllWellFormed(cfg, b)
    ensures AllWellFormed(cfg, a + b)
  {
    assert forall i :: 0 <= i < |a + b| ==> (a + b)[i] == if i < |a| then a[i] else b[i - |a|];
  }

  /** processFolder returns null exactly when the folder is pruned or nothing in it survives. */
  lemma FolderScanNone(cfg: Config, store: Store, dir: FsEntry, path: string)
    requires dir.FsDir?
    ensures FolderScan(cfg, store, dir, path).None? <==>
      Skipped(cfg, path) || |Collect(cfg, store, dir, path, |dir.entries|)| == 0
    ensures FolderScan(cfg, store, dir, path).Some? ==>
      FolderScan(cfg, store, dir, path).value.folder == path
  {
  }

  /**
   * What one entry adds to the contents: nothing for a dot entry; for a file,
   * a file item wrapping its records under its real path; for a directory,
   * the directory's own result inlined; nothing when either returns null.
   */
  lemma ChildItemsCases(cfg: Config, store: Store, e: FsEntry, dir: string)
    ensures IsDot(e) ==> ChildItems(cfg, store, e, dir) == []
    ensures !IsDot(e) && e.FsFile? ==>
      var p := ChildPath(dir, e.name);
      ChildItems(cfg, store, e, dir) ==
        match ProcessFile(cfg, store, p)
        case None => []
        case Some(rs) => [File(p, rs)]
    ensures !IsDot(e) && e.FsDir? ==>
      var p := ChildPath(dir, e.name);
      ChildItems(cfg, store, e, dir) ==
        match FolderScan(cfg, store, e, p)
        case None => []
        case Some(d) => [d]
  {
  }

  /** An entry adds nothing exactly when it is a dot entry or its scan returns nothing. */
  lemma ChildItemsEmpty(cfg: Config, store: Store, e: FsEntry, dir: string)
    ensures |ChildItems(cfg, store, e, dir)| == 0 <==>
      IsDot(e) || ProcessNode(cfg, store, e, ChildPath(dir, e.name)).None?
    ensures |ChildItems(cfg, store, e, dir)| <= 1
  {
    if !IsDot(e) {
      ScanShape(cfg, store, e, ChildPath(dir, e.name));
    }
  }

  /**
   * A directory with nothing but dot entries, filtered files and pruned or
   * empty subdirectories disappears: its contents are empty exactly when
   * every non-dot entry's scan returned nothing.
   */
  lemma {:induction false} CollectEmpty(cfg: Config, store: Store, dir: FsEntry, path: string, n: nat)
    requires dir.FsDir? && n <= |dir.entries|
    ensures |Collect(cfg, store, dir, path, n)| == 0 <==>
      forall i :: 0 <= i < n ==> |ChildItems(cfg, store, dir.entries[i], path)| == 0
    ensures |Collect(cfg, store, dir, path, n)| <= n
  {
    if n > 0 {
      CollectEmpty(cfg, store, dir, path, n - 1);
      ChildItemsEmpty(cfg, store, dir.entries[n - 1], path);
    }
  }

  /** A degraded file reads as `?`: the synthetic record's status is neither verdict. */
  lemma ProcessFileFailure(cfg: Config, store: Store, path: string)
    requires Allowed(cfg, path)
    ensures path !in store.hashFile ==>
      ProcessFile(cfg, store, path) == Some([UnknownRecord("empty", path)])
    ensures path in store.hashFile &&
            (store.hashFile[path] !in store.statusAllUsers ||
             |store.statusAllUsers[store.hashFile[path]]| == 0) ==>
      ProcessFile(cfg, store, path) == Some([UnknownRecord(store.hashFile[path], path)])
    ensures path in store.hashFile && store.hashFile[path] in store.statusAllUsers &&
            |store.statusAllUsers[store.hashFile[path]]| > 0 ==>
      ProcessFile(cfg, store, path) == Some(store.statusAllUsers[store.hashFile[path]])
  {
  }
}
