/** The file store (resource/filestore.go): temporary files, problem files, their index, and the disk under them. */
module Storage {
  import opened Lines
  import opened Paths
  import opened Seqs

  type Digest = string -> string

  /** An idealised digest: no collisions, and every value is fit for a file name. */
  ghost predicate GoodDigest(sha1: Digest) {
    && (forall a, b :: sha1(a) == sha1(b) ==> a == b)
    && (forall a :: PlainName(sha1(a)))
  }

  function Sha(sha1: Digest, s: string): string {
    if s == "" then "" else sha1(s)
  }

  /** Everything the store keeps: three maps in memory, the files on disk and the problem directories. */
  datatype Store = Store(tmpFiles: map<string, string>, probFiles: map<string, string>, shaToKey: map<string, string>,
                         files: map<Path, Text>, dirs: set<string>)

  /** Where the store lives and how it names files. */
  datatype Layout = Layout(root: Path, sha1: Digest) {
    function TmpLoc(): Path { root + ["tmp"] }
    function ProbDir(dir: string): Path { root + ["persistent", dir] }
    function ProbPath(dir: string, key: string): Path { root + ["persistent", dir, Sha(sha1, key)] }
    function TmpPath(id: string): Path { Walk(TmpLoc(), Split(id)) }
  }

  /** The index key of a resource. */
  function StoreKey(dir: string, key: string): string {
    dir + "/" + key
  }

  // ----- what the operations do, as functions of the store and of what the operating system answers

  datatype Lstat = Present | Missing | Unreadable

  datatype Opened = Created | AlreadyThere | Refused

  /** The answers of the operating system while one resource is saved, and the data that the backend sends. */
  datatype SaveIO = SaveIO(lstat: Lstat, mkdirOk: bool, open: Opened, data: Text, copyOk: bool, rollbackOk: bool)

  /** Opening exclusively creates a file only where there is none, and finds one only where there is one. */
  ghost predicate Realistic(l: Layout, st: Store, dir: string, key: string, io: SaveIO) {
    && (io.lstat == Present ==> dir in st.dirs)
    && (io.open == Created ==> l.ProbPath(dir, key) !in st.files)
    && (io.open == AlreadyThere ==> l.ProbPath(dir, key) in st.files)
  }

  function Save(l: Layout, st: Store, dir: string, key: string, size: int, io: SaveIO): (Store, bool) {
    if io.lstat == Unreadable || (io.lstat == Missing && !io.mkdirOk) then (st, false)
    else
      var path := l.ProbPath(dir, key);
      var st' := if io.lstat == Missing then st.(dirs := st.dirs + {dir}) else st;
      match io.open
      case AlreadyThere => (st', true)
      case Refused => (st', false)
      case Created =>
        if io.copyOk && (size < 0 || |io.data| == size) then (st'.(files := st'.files[path := io.data]), true)
        else if io.rollbackOk then (st'.(files := st'.files - {path}), false)
        else (st'.(files := st'.files[path := io.data]), false)
  }

  function Submit(l: Layout, st: Store, dir: string, keys: seq<string>): Store {
    if keys == [] then st
    else
      var n := |keys| - 1;
      var before := Submit(l, st, dir, keys[..n]);
      before.(probFiles := before.probFiles[StoreKey(dir, keys[n]) := keys[n]],
              shaToKey := before.shaToKey[Sha(l.sha1, keys[n]) := keys[n]])
  }

  /** The answers while a problem is evicted: its directory listing, and what survives if removal fails. */
  datatype EvictIO = EvictIO(readOk: bool, listing: seq<string>, removeOk: bool, left: set<Path>)

  predicate IsProbFile(l: Layout, dir: string, path: Path) {
    |path| == |l.root| + 3 && path[..|l.root| + 2] == l.ProbDir(dir)
  }

  /** Only an existing directory can be read, and reading lists exactly its files. */
  ghost predicate RealisticListing(l: Layout, st: Store, dir: string, io: EvictIO) {
    io.readOk ==>
      && dir in st.dirs
      && (forall name :: name in io.listing <==> l.ProbDir(dir) + [name] in st.files)
  }

  function ShaKey(st: Store, name: string): string {
    if name in st.shaToKey then st.shaToKey[name] else ""
  }

  function Unindex(st: Store, dir: string, listing: seq<string>): Store {
    if listing == [] then st
    else
      var n := |listing| - 1;
      var before := Unindex(st, dir, listing[..n]);
      before.(probFiles := before.probFiles - {StoreKey(dir, ShaKey(st, listing[n]))})
  }

  /** The files after removing the directory, wholly or in part. */
  function Purged(l: Layout, files: map<Path, Text>, dir: string, io: EvictIO): map<Path, Text> {
    map path | path in files && (!IsProbFile(l, dir, path) || (!io.removeOk && path in io.left)) :: files[path]
  }

  function Evict(l: Layout, st: Store, dir: string, io: EvictIO): (Store, bool) {
    if !io.readOk then (st, false)
    else
      var st' := Unindex(st, dir, io.listing);
      var dirs := if io.removeOk then st.dirs - {dir} else st.dirs;
      (st'.(files := Purged(l, st.files, dir, io), dirs := dirs), io.removeOk)
  }

  /** Removing a path deletes the file there, if there is one and the operating system agrees. */
  function OsRemove(files: map<Path, Text>, path: Path, fails: bool): map<Path, Text> {
    if fails then files else files - {path}
  }

  function BulkRemoved(l: Layout, st: Store, ids: seq<string>, fails: nat -> bool): (Store, nat) {
    if ids == [] then (st, 0)
    else
      var n := |ids| - 1;
      var (before, count) := BulkRemoved(l, st, ids[..n], fails);
      if ids[n] !in before.tmpFiles then (before, count)
      else (before.(tmpFiles := before.tmpFiles - {ids[n]},
                    files := OsRemove(before.files, l.TmpPath(ids[n]), fails(n))), count + 1)
  }

  /** The last component of a path, as its file name. */
  function Base(path: string): string {
    if path == "" then "."
    else
      var trimmed := TrimSlashes(path);
      if trimmed == "" then "/" else LastPart(trimmed)
  }

  /** The file named by an absolute path lies directly in this directory. */
  predicate LiesIn(path: string, dir: Path) {
    path != "" && path[0] == '/' && Walk([], Split(DirPart(path))) == dir
  }

  /** Everything up to the last slash. */
  function DirPart(s: string): string {
    if s == "" || s[|s| - 1] == '/' then s else DirPart(s[..|s| - 1])
  }

  function TrimSlashes(s: string): (t: string)
    ensures t == "" || t[|t| - 1] != '/'
  {
    if s == "" || s[|s| - 1] != '/' then s else TrimSlashes(s[..|s| - 1])
  }

  function LastPart(s: string): (t: string)
    ensures SlashFree(t)
  {
    if s == "" || s[|s| - 1] == '/' then "" else LastPart(s[..|s| - 1]) + [s[|s| - 1]]
  }

  /** Whether the disk has a file or one of the store's directories at this path. */
  predicate Exists(l: Layout, st: Store, path: Path) {
    || path in st.files
    || path <= l.root || path == l.TmpLoc() || path == l.root + ["persistent"]
    || (|path| == |l.root| + 2 && path == l.ProbDir(path[|l.root| + 1]) && path[|l.root| + 1] in st.dirs)
  }

  datatype Found = Found(name: string, path: Path) | NotFound

  function Get(l: Layout, st: Store, id: string): Found {
    if "problem/" <= id then
      var parts := Split(id);
      if |parts| != 3 then NotFound
      else
        var key := JoinPair(parts[1], parts[2]);
        var path := Walk(l.root + ["persistent"], [parts[1], Sha(l.sha1, parts[2])]);
        if key in st.probFiles && Exists(l, st, path) then Found(st.probFiles[key], path) else NotFound
    else
      var path := l.TmpPath(id);
      if !Exists(l, st, path) then NotFound
      else Found(if id in st.tmpFiles then st.tmpFiles[id] else id, path)
  }

  // ----- what stays true

  /** The directory part of an index key for this resource key. */
  function DirOf(fileKey: string, key: string): string {
    if |fileKey| > |key| then fileKey[..|fileKey| - |key| - 1] else ""
  }

  /** One index entry: it maps dir/key to key, the file exists, and its name leads back to the key. */
  ghost predicate Backed(l: Layout, st: Store, fileKey: string, key: string) {
    var dir := DirOf(fileKey, key);
    && fileKey == StoreKey(dir, key) && PlainName(dir) && key != ""
    && dir in st.dirs && l.ProbPath(dir, key) in st.files
    && Sha(l.sha1, key) in st.shaToKey && st.shaToKey[Sha(l.sha1, key)] == key
  }

  /** The file of this resource is on disk. */
  ghost predicate Saved(l: Layout, st: Store, dir: string, key: string) {
    key != "" && dir in st.dirs && l.ProbPath(dir, key) in st.files
  }

  ghost predicate IndexInDisk(l: Layout, st: Store) {
    forall fileKey :: fileKey in st.probFiles ==> Backed(l, st, fileKey, st.probFiles[fileKey])
  }

  /** The names of temporary files never contain a slash. */
  ghost predicate TmpIdsFlat(st: Store) {
    forall id :: id in st.tmpFiles ==> SlashFree(id)
  }

  ghost predicate Consistent(l: Layout, st: Store) {
    GoodDigest(l.sha1) && IndexInDisk(l, st) && TmpIdsFlat(st)
  }

  ghost predicate SameProblemFiles(l: Layout, st: Store, st': Store) {
    && st'.probFiles == st.probFiles && st'.shaToKey == st.shaToKey && st'.dirs == st.dirs
    && forall dir, path :: IsProbFile(l, dir, path) ==>
         (path in st'.files <==> path in st.files) && (path in st.files ==> st'.files[path] == st.files[path])
  }

  /** Nothing on disk is lost: every file keeps its content. */
  ghost predicate KeepsFiles(st: Store, st': Store) {
    && st.dirs <= st'.dirs
    && forall path :: path in st.files ==> path in st'.files && st'.files[path] == st.files[path]
  }

  ghost predicate SameIndex(st: Store, st': Store) {
    st'.tmpFiles == st.tmpFiles && st'.probFiles == st.probFiles && st'.shaToKey == st.shaToKey
  }

  /**
   * Saving never touches an existing file, whatever fails: only the resource's own path can appear, and only its own
   * directory. Success means the file is there, and a file that was written by this call has the data and the declared
   * size.
   */
  lemma SaveEffect(l: Layout, st: Store, dir: string, key: string, size: int, io: SaveIO)
    requires Realistic(l, st, dir, key, io)
    ensures var (st', ok) := Save(l, st, dir, key, size, io);
            var path := l.ProbPath(dir, key);
            && SameIndex(st, st') && KeepsFiles(st, st')
            && (forall p :: p in st'.files && p !in st.files ==> p == path)
            && st'.dirs <= st.dirs + {dir}
            && (ok ==> dir in st'.dirs && path in st'.files)
            && (ok && path !in st.files ==> st'.files[path] == io.data && (size < 0 || |io.data| == size))
            && (!ok && path !in st.files && path in st'.files ==> !io.rollbackOk)
  {
  }

  lemma KeepingFilesKeepsIndex(l: Layout, st: Store, st': Store)
    requires Consistent(l, st) && SameIndex(st, st') && KeepsFiles(st, st')
    ensures Consistent(l, st')
  {
  }

  /** The directory part of a key can be read back. */
  lemma DirOfStoreKey(dir: string, key: string)
    ensures DirOf(StoreKey(dir, key), key) == dir
  {
    assert StoreKey(dir, key)[..|dir|] == dir;
  }

  lemma {:induction false} SubmitEffect(l: Layout, st: Store, dir: string, keys: seq<string>)
    requires Consistent(l, st) && PlainName(dir)
    requires forall key :: key in keys ==> Saved(l, st, dir, key)
    ensures var st' := Submit(l, st, dir, keys);
            && Consistent(l, st') && st'.files == st.files && st'.dirs == st.dirs && st'.tmpFiles == st.tmpFiles
            && (forall key :: key in keys ==> StoreKey(dir, key) in st'.probFiles)
            && (forall fileKey :: fileKey in st'.probFiles ==>
                  (fileKey in st.probFiles && st'.probFiles[fileKey] == st.probFiles[fileKey])
                  || (exists key :: key in keys && fileKey == StoreKey(dir, key)))
            && (forall fileKey :: fileKey in st.probFiles ==> fileKey in st'.probFiles)
  {
    if keys != [] {
      var n := |keys| - 1;
      SubmitEffect(l, st, dir, keys[..n]);
      assert keys[n] in keys && Saved(l, st, dir, keys[n]);
      SubmitOne(l, Submit(l, st, dir, keys[..n]), dir, keys[n]);
    }
  }

  lemma SubmitOneMore(l: Layout, st: Store, dir: string, keys: seq<string>, i: nat)
    requires i < |keys|
    ensures var before := Submit(l, st, dir, keys[..i]);
            Submit(l, st, dir, keys[..i + 1])
            == before.(probFiles := before.probFiles[StoreKey(dir, keys[i]) := keys[i]],
                       shaToKey := before.shaToKey[Sha(l.sha1, keys[i]) := keys[i]])
  {
    assert keys[..i + 1][..i] == keys[..i];
  }

  lemma SubmitOne(l: Layout, st: Store, dir: string, key: string)
    requires Consistent(l, st) && PlainName(dir) && Saved(l, st, dir, key)
    ensures var fileKey := StoreKey(dir, key);
            var st' := st.(probFiles := st.probFiles[fileKey := key], shaToKey := st.shaToKey[Sha(l.sha1, key) := key]);
            && Consistent(l, st')
            && (fileKey in st.probFiles ==> st.probFiles[fileKey] == key)
  {
    var fileKey := StoreKey(dir, key);
    var st' := st.(probFiles := st.probFiles[fileKey := key], shaToKey := st.shaToKey[Sha(l.sha1, key) := key]);
    DirOfStoreKey(dir, key);
    forall k | k in st'.probFiles
      ensures Backed(l, st', k, st'.probFiles[k])
    {
      if k != fileKey {
        assert Backed(l, st, k, st.probFiles[k]);
        assert l.sha1(st.probFiles[k]) == l.sha1(key) ==> st.probFiles[k] == key;
      }
    }
    if fileKey in st.probFiles {
      var key' := st.probFiles[fileKey];
      assert Backed(l, st, fileKey, key');
      SlashUnique(dir, key, DirOf(fileKey, key'), key');
    }
  }

  lemma {:induction false} UnindexEffect(st: Store, dir: string, listing: seq<string>)
    ensures var st' := Unindex(st, dir, listing);
            && st' == st.(probFiles := st'.probFiles)
            && (forall fileKey :: fileKey in st'.probFiles <==>
                  fileKey in st.probFiles
                  && forall name :: name in listing ==> fileKey != StoreKey(dir, ShaKey(st, name)))
            && (forall fileKey :: fileKey in st'.probFiles ==> st'.probFiles[fileKey] == st.probFiles[fileKey])
  {
    if listing != [] {
      var n := |listing| - 1;
      UnindexEffect(st, dir, listing[..n]);
      assert forall name :: name in listing <==> name in listing[..n] || name == listing[n];
    }
  }

  /** An indexed key leaves the index exactly if it belongs to the directory that is unindexed. */
  lemma UnindexedIff(l: Layout, st: Store, dir: string, listing: seq<string>, fileKey: string)
    requires Consistent(l, st) && PlainName(dir) && fileKey in st.probFiles
    requires forall name :: name in listing <==> l.ProbDir(dir) + [name] in st.files
    ensures fileKey in Unindex(st, dir, listing).probFiles <==> DirOf(fileKey, st.probFiles[fileKey]) != dir
  {
    UnindexEffect(st, dir, listing);
    var key := st.probFiles[fileKey];
    var dir' := DirOf(fileKey, key);
    assert Backed(l, st, fileKey, key);
    if dir' == dir {
      assert l.ProbDir(dir) + [Sha(l.sha1, key)] == l.ProbPath(dir, key);
      assert Sha(l.sha1, key) in listing;
    } else {
      forall name | name in listing
        ensures fileKey != StoreKey(dir, ShaKey(st, name))
      {
        if fileKey == StoreKey(dir, ShaKey(st, name)) {
          SlashUnique(dir, ShaKey(st, name), dir', key);
        }
      }
    }
  }

  /**
   * Eviction removes exactly the problem's index entries as soon as its directory can be read, whether or not the
   * directory is removed then, and nothing at all otherwise.
   */
  lemma EvictEffect(l: Layout, st: Store, dir: string, io: EvictIO)
    requires Consistent(l, st) && PlainName(dir) && RealisticListing(l, st, dir, io)
    ensures var (st', ok) := Evict(l, st, dir, io);
            && Consistent(l, st')
            && ok == (io.readOk && io.removeOk)
            && (!io.readOk ==> st' == st)
            && (io.readOk ==> forall fileKey :: fileKey in st'.probFiles <==>
                  fileKey in st.probFiles && DirOf(fileKey, st.probFiles[fileKey]) != dir)
            && (forall fileKey :: fileKey in st'.probFiles ==> st'.probFiles[fileKey] == st.probFiles[fileKey])
            && st'.tmpFiles == st.tmpFiles
            && (ok ==> dir !in st'.dirs && forall path :: path in st'.files ==> !IsProbFile(l, dir, path))
            && (forall path :: path in st.files && !IsProbFile(l, dir, path) ==>
                  path in st'.files && st'.files[path] == st.files[path])
  {
    if io.readOk {
      var st' := Evict(l, st, dir, io).0;
      UnindexEffect(st, dir, io.listing);
      forall fileKey | fileKey in st.probFiles
        ensures fileKey in st'.probFiles <==> DirOf(fileKey, st.probFiles[fileKey]) != dir
        ensures fileKey in st'.probFiles ==> Backed(l, st', fileKey, st.probFiles[fileKey])
      {
        UnindexedIff(l, st, dir, io.listing, fileKey);
        var key := st.probFiles[fileKey];
        assert Backed(l, st, fileKey, key);
        if DirOf(fileKey, key) != dir {
          var path := l.ProbPath(DirOf(fileKey, key), key);
          assert path[|l.root| + 1] == DirOf(fileKey, key) && l.ProbDir(dir)[|l.root| + 1] == dir;
          assert path[..|l.root| + 2][|l.root| + 1] == path[|l.root| + 1];
          assert !IsProbFile(l, dir, path);
        }
      }
    }
  }

  /** A directory that was read loses all its files, but for those that a failed removal leaves; no other file goes. */
  lemma EvictLeavesIff(l: Layout, st: Store, dir: string, io: EvictIO, path: Path)
    ensures var files := Evict(l, st, dir, io).0.files;
            && (path in files
                <==> path in st.files && (io.readOk && IsProbFile(l, dir, path) ==> !io.removeOk && path in io.left))
            && (path in files ==> files[path] == st.files[path])
  {
    UnindexEffect(st, dir, io.listing);
  }

  lemma EvictKeepsConsistent(l: Layout, st: Store, dir: string, io: EvictIO)
    requires Consistent(l, st) && PlainName(dir) && RealisticListing(l, st, dir, io)
    ensures Consistent(l, Evict(l, st, dir, io).0)
  {
    EvictEffect(l, st, dir, io);
  }

  lemma UnindexOneMore(st: Store, dir: string, listing: seq<string>, i: nat)
    requires i < |listing|
    ensures var now := Unindex(st, dir, listing[..i]);
            Unindex(st, dir, listing[..i + 1])
            == now.(probFiles := now.probFiles - {StoreKey(dir, ShaKey(now, listing[i]))})
  {
    assert listing[..i + 1][..i] == listing[..i];
    UnindexEffect(st, dir, listing[..i]);
  }

  lemma UnindexAll(st: Store, dir: string, listing: seq<string>)
    ensures var now := Unindex(st, dir, listing[..|listing|]);
            now == Unindex(st, dir, listing) && now.files == st.files && now.dirs == st.dirs
  {
    TakeAll(listing);
    UnindexEffect(st, dir, listing);
  }

  /**
   * A resource id is found exactly when it is indexed and its key is a plain name, and then under its own name and
   * path. A key with a slash or a dot name is never found, indexed or not.
   */
  lemma GetFindsIndexed(l: Layout, st: Store, dir: string, key: string)
    requires Consistent(l, st) && PlainName(dir) && key != ""
    ensures Get(l, st, "problem/" + StoreKey(dir, key))
         == if StoreKey(dir, key) in st.probFiles && PlainName(key) then Found(key, l.ProbPath(dir, key)) else NotFound
  {
    var id := "problem/" + StoreKey(dir, key);
    assert id == "problem" + "/" + dir + "/" + key;
    SplitTriple("problem", dir, key);
    SplitLength(key);
    if SlashFree(key) {
      SplitSlashFree(key);
      assert Split(id) == ["problem", dir, key];
      if PlainName(key) {
        GetPlain(l, st, dir, key);
      } else {
        IndexKeysHaveSlash(l, st);
      }
    }
  }

  lemma GetPlain(l: Layout, st: Store, dir: string, key: string)
    requires Consistent(l, st) && PlainName(dir) && PlainName(key)
    requires Split("problem/" + StoreKey(dir, key)) == ["problem", dir, key]
    ensures Get(l, st, "problem/" + StoreKey(dir, key))
         == if StoreKey(dir, key) in st.probFiles then Found(key, l.ProbPath(dir, key)) else NotFound
  {
    var fileKey := StoreKey(dir, key);
    JoinPairInverse(dir, key, dir, key);
    WalkTwo(l.root + ["persistent"], dir, Sha(l.sha1, key));
    assert l.root + ["persistent"] + [dir] + [Sha(l.sha1, key)] == l.ProbPath(dir, key);
    if fileKey in st.probFiles {
      var key' := st.probFiles[fileKey];
      assert Backed(l, st, fileKey, key');
      SlashUnique(dir, key, DirOf(fileKey, key'), key');
    }
  }

  /** Every index key has a slash in it. */
  lemma IndexKeysHaveSlash(l: Layout, st: Store)
    requires Consistent(l, st)
    ensures forall fileKey :: fileKey in st.probFiles ==> !SlashFree(fileKey)
  {
    forall fileKey | fileKey in st.probFiles
      ensures !SlashFree(fileKey)
    {
      var key := st.probFiles[fileKey];
      assert Backed(l, st, fileKey, key);
      assert fileKey[|DirOf(fileKey, key)|] == '/';
    }
  }

  lemma WalkTwo(base: Path, a: string, b: string)
    requires PlainName(a) && PlainName(b)
    ensures Walk(base, [a, b]) == base + [a] + [b]
  {
    assert [a, b][1..] == [b] && [b][1..] == [];
    assert Walk(base, [a, b]) == Walk(base + [a], [b]) == Walk(base + [a] + [b], []);
  }

  // ----- temporary files stay apart from problem files

  /** The path of a slash-free id is no problem file. */
  lemma TmpPathIsNoProblemFile(l: Layout, id: string, dir: string)
    requires SlashFree(id)
    ensures !IsProbFile(l, dir, l.TmpPath(id))
  {
    WalkSlashFree(l.TmpLoc(), id);
  }

  lemma RemoveTmpKeepsProblems(l: Layout, st: Store, id: string, fails: bool)
    requires Consistent(l, st) && SlashFree(id)
    ensures var st' := st.(tmpFiles := st.tmpFiles - {id}, files := OsRemove(st.files, l.TmpPath(id), fails));
            Consistent(l, st') && SameProblemFiles(l, st, st')
  {
    var st' := st.(tmpFiles := st.tmpFiles - {id}, files := OsRemove(st.files, l.TmpPath(id), fails));
    forall dir, path | IsProbFile(l, dir, path)
      ensures (path in st'.files <==> path in st.files) && (path in st.files ==> st'.files[path] == st.files[path])
    {
      TmpPathIsNoProblemFile(l, id, dir);
    }
    forall fileKey | fileKey in st'.probFiles
      ensures Backed(l, st', fileKey, st'.probFiles[fileKey])
    {
      var key := st.probFiles[fileKey];
      assert Backed(l, st, fileKey, key);
      var path := l.ProbPath(DirOf(fileKey, key), key);
      assert path[..|l.root| + 2] == l.ProbDir(DirOf(fileKey, key));
      assert IsProbFile(l, DirOf(fileKey, key), path);
    }
  }

  /** The listed ids that name temporary files. */
  ghost function Known(st: Store, ids: seq<string>): set<string> {
    set id | id in ids && id in st.tmpFiles
  }

  lemma OneMoreKnown(st: Store, ids: seq<string>)
    requires ids != []
    ensures var n := |ids| - 1;
            |Known(st, ids)|
            == |Known(st, ids[..n])| + if ids[n] in st.tmpFiles && ids[n] !in ids[..n] then 1 else 0
  {
    var n := |ids| - 1;
    if ids[n] in st.tmpFiles && ids[n] !in ids[..n] {
      assert Known(st, ids) == Known(st, ids[..n]) + {ids[n]};
    } else {
      assert Known(st, ids) == Known(st, ids[..n]);
    }
  }

  /** Whether deleting some file fails; the others are removed all the same. */
  function BulkFails(l: Layout, st: Store, ids: seq<string>, fails: nat -> bool): bool {
    if ids == [] then false
    else
      var n := |ids| - 1;
      BulkFails(l, st, ids[..n], fails) || (ids[n] in BulkRemoved(l, st, ids[..n], fails).0.tmpFiles && fails(n))
  }

  lemma {:induction false} BulkRemoveForgets(l: Layout, st: Store, ids: seq<string>, fails: nat -> bool)
    ensures BulkRemoved(l, st, ids, fails).0.tmpFiles == st.tmpFiles - (set id | id in ids)
  {
    if ids != [] {
      var n := |ids| - 1;
      BulkRemoveForgets(l, st, ids[..n], fails);
      assert (set id | id in ids) == (set id | id in ids[..n]) + {ids[n]};
    }
  }

  /** Bulk removal counts the distinct ids it knew. */
  lemma {:induction false} BulkRemoveCounts(l: Layout, st: Store, ids: seq<string>, fails: nat -> bool)
    ensures BulkRemoved(l, st, ids, fails).1 == |Known(st, ids)|
  {
    if ids != [] {
      var n := |ids| - 1;
      BulkRemoveCounts(l, st, ids[..n], fails);
      BulkRemoveForgets(l, st, ids[..n], fails);
      OneMoreKnown(st, ids);
    }
  }

  /** It leaves all problem files alone, whatever ids it is given. */
  lemma {:induction false} BulkRemoveKeeps(l: Layout, st: Store, ids: seq<string>, fails: nat -> bool)
    requires Consistent(l, st)
    ensures var st' := BulkRemoved(l, st, ids, fails).0;
            Consistent(l, st') && SameProblemFiles(l, st, st')
  {
    if ids != [] {
      var n := |ids| - 1;
      var before := BulkRemoved(l, st, ids[..n], fails).0;
      BulkRemoveKeeps(l, st, ids[..n], fails);
      if ids[n] in before.tmpFiles {
        RemoveTmpKeepsProblems(l, before, ids[n], fails(n));
        SameProblemFilesTransitive(l, st, before, BulkRemoved(l, st, ids, fails).0);
      }
    }
  }

  lemma BulkRemoveEffect(l: Layout, st: Store, ids: seq<string>, fails: nat -> bool)
    requires Consistent(l, st)
    ensures var (st', count) := BulkRemoved(l, st, ids, fails);
            && Consistent(l, st') && SameProblemFiles(l, st, st')
            && st'.tmpFiles == st.tmpFiles - (set id | id in ids)
            && count == |Known(st, ids)|
  {
    BulkRemoveForgets(l, st, ids, fails);
    BulkRemoveCounts(l, st, ids, fails);
    BulkRemoveKeeps(l, st, ids, fails);
  }

  /** The first mention of a known id, whose file cannot be deleted. */
  ghost predicate FailsAt(st: Store, ids: seq<string>, fails: nat -> bool, i: nat)
    requires i < |ids|
  {
    ids[i] in st.tmpFiles && ids[i] !in ids[..i] && fails(i)
  }

  /** An error is returned exactly when the file of some known id cannot be deleted, at its first mention. */
  lemma {:induction false} BulkFailsIff(l: Layout, st: Store, ids: seq<string>, fails: nat -> bool)
    ensures BulkFails(l, st, ids, fails) <==> exists i :: 0 <= i < |ids| && FailsAt(st, ids, fails, i)
  {
    if ids != [] {
      var n := |ids| - 1;
      BulkFailsIff(l, st, ids[..n], fails);
      BulkRemoveForgets(l, st, ids[..n], fails);
      forall i | 0 <= i < n
        ensures FailsAt(st, ids, fails, i) <==> FailsAt(st, ids[..n], fails, i)
      {
        assert ids[..n][..i] == ids[..i];
      }
      assert FailsAt(st, ids, fails, n) <==> ids[n] in BulkRemoved(l, st, ids[..n], fails).0.tmpFiles && fails(n);
    }
  }

  lemma BulkRemoveOneMore(l: Layout, st: Store, ids: seq<string>, fails: nat -> bool, i: nat)
    requires i < |ids|
    ensures var (before, count) := BulkRemoved(l, st, ids[..i], fails);
            BulkRemoved(l, st, ids[..i + 1], fails)
            == if ids[i] !in before.tmpFiles then (before, count)
               else (before.(tmpFiles := before.tmpFiles - {ids[i]},
                             files := OsRemove(before.files, l.TmpPath(ids[i]), fails(i))), count + 1)
    ensures BulkFails(l, st, ids[..i + 1], fails)
         == (BulkFails(l, st, ids[..i], fails)
             || (ids[i] in BulkRemoved(l, st, ids[..i], fails).0.tmpFiles && fails(i)))
  {
    assert ids[..i + 1][..i] == ids[..i];
  }

  lemma {:induction false} WalkOfSlashes(s: string)
    requires TrimSlashes(s) == ""
    ensures DirPart(s) == s && Walk([], Split(s)) == []
  {
    AllSlashes(s);
    if s != "" {
      AllSlashes(s[1..]);
      WalkOfSlashes(s[1..]);
      assert ([""] + Split(s[1..]))[1..] == Split(s[1..]);
    } else {
      assert [""][1..] == [];
    }
  }

  lemma {:induction false} AllSlashes(s: string)
    ensures TrimSlashes(s) == "" <==> forall i :: 0 <= i < |s| ==> s[i] == '/'
  {
    if s != "" && s[|s| - 1] == '/' {
      AllSlashes(s[..|s| - 1]);
    }
  }

  /** The id of an added file is its file name, which has no slash in it. */
  lemma AddedIdIsFlat(l: Layout, path: string)
    requires LiesIn(path, l.TmpLoc())
    ensures SlashFree(Base(path))
  {
    if TrimSlashes(path) == "" {
      WalkOfSlashes(path);
    }
  }

  function Added(l: Layout, st: Store, name: string, path: string): (Store, bool) {
    if LiesIn(path, l.TmpLoc()) then (st.(tmpFiles := st.tmpFiles[Base(path) := name]), true) else (st, false)
  }

  function Removed(l: Layout, st: Store, id: string, fails: bool): (Store, bool) {
    if id !in st.tmpFiles || fails then (st, false)
    else (st.(tmpFiles := st.tmpFiles - {id}, files := OsRemove(st.files, l.TmpPath(id), false)), true)
  }

  lemma AddEffect(l: Layout, st: Store, name: string, path: string)
    requires Consistent(l, st)
    ensures var st' := Added(l, st, name, path).0;
            Consistent(l, st') && SameProblemFiles(l, st, st')
  {
    var st' := Added(l, st, name, path).0;
    if LiesIn(path, l.TmpLoc()) {
      AddedIdIsFlat(l, path);
    }
    forall fileKey | fileKey in st'.probFiles
      ensures Backed(l, st', fileKey, st'.probFiles[fileKey])
    {
      assert Backed(l, st, fileKey, st.probFiles[fileKey]);
    }
  }

  /** The operations on temporary files; each comes with what the operating system answers. */
  datatype TmpOp =
    | AddFile(name: string, path: string)
    | RemoveFile(id: string, fails: bool)
    | RemoveFiles(ids: seq<string>, failing: nat -> bool)

  function ApplyTmp(l: Layout, st: Store, op: TmpOp): Store {
    match op
    case AddFile(name, path) => Added(l, st, name, path).0
    case RemoveFile(id, fails) => Removed(l, st, id, fails).0
    case RemoveFiles(ids, failing) => BulkRemoved(l, st, ids, failing).0
  }

  function AfterTmp(l: Layout, st: Store, ops: seq<TmpOp>): Store {
    if ops == [] then st else ApplyTmp(l, AfterTmp(l, st, ops[..|ops| - 1]), ops[|ops| - 1])
  }

  /** No sequence of operations on temporary files, whatever ids they are given, touches a problem file or the index. */
  lemma {:induction false} TmpRunKeepsProblems(l: Layout, st: Store, ops: seq<TmpOp>)
    requires Consistent(l, st)
    ensures Consistent(l, AfterTmp(l, st, ops)) && SameProblemFiles(l, st, AfterTmp(l, st, ops))
  {
    if ops != [] {
      var n := |ops| - 1;
      var before := AfterTmp(l, st, ops[..n]);
      TmpRunKeepsProblems(l, st, ops[..n]);
      TmpStepKeepsProblems(l, before, ops[n]);
      SameProblemFilesTransitive(l, st, before, AfterTmp(l, st, ops));
    }
  }

  lemma TmpStepKeepsProblems(l: Layout, st: Store, op: TmpOp)
    requires Consistent(l, st)
    ensures Consistent(l, ApplyTmp(l, st, op)) && SameProblemFiles(l, st, ApplyTmp(l, st, op))
  {
    match op {
      case AddFile(name, path) =>
        AddEffect(l, st, name, path);
      case RemoveFile(id, fails) =>
        if id in st.tmpFiles && !fails {
          RemoveTmpKeepsProblems(l, st, id, false);
        }
      case RemoveFiles(ids, failing) =>
        BulkRemoveEffect(l, st, ids, failing);
    }
  }

  lemma SameProblemFilesTransitive(l: Layout, a: Store, b: Store, c: Store)
    requires SameProblemFiles(l, a, b) && SameProblemFiles(l, b, c)
    ensures SameProblemFiles(l, a, c)
  {
  }

  lemma UndoWrite(files: map<Path, Text>, path: Path, data: Text)
    ensures files[path := data] - {path} == files - {path}
  {
  }

  lemma SaveKeepsConsistent(l: Layout, st: Store, dir: string, key: string, size: int, io: SaveIO)
    requires Consistent(l, st) && Realistic(l, st, dir, key, io)
    ensures Consistent(l, Save(l, st, dir, key, size, io).0)
  {
    SaveEffect(l, st, dir, key, size, io);
    KeepingFilesKeepsIndex(l, st, Save(l, st, dir, key, size, io).0);
  }

  // ----- the store as an object

  class FileStore {
    const layout: Layout
    var tmpFiles: map<string, string>
    var probFiles: map<string, string>
    var shaToKey: map<string, string>
    var files: map<Path, Text>
    var dirs: set<string>

    function View(): Store
      reads this
    {
      Store(tmpFiles, probFiles, shaToKey, files, dirs)
    }

    ghost predicate Valid()
      reads this
    {
      Consistent(layout, View())
    }

    /** Opens a store over whatever files an earlier process has left; nothing of that is indexed. */
    constructor (layout: Layout, files: map<Path, Text>, dirs: set<string>)
      requires GoodDigest(layout.sha1)
      ensures Valid() && this.layout == layout && View() == Store(map[], map[], map[], files, dirs)
    {
      this.layout := layout;
      tmpFiles, probFiles, shaToKey := map[], map[], map[];
      this.files, this.dirs := files, dirs;
    }

    method SaveResource(dir: string, key: string, size: int, io: SaveIO) returns (ok: bool)
      requires Valid() && Realistic(layout, View(), dir, key, io)
      modifies this`files, this`dirs
      ensures Valid() && (View(), ok) == Save(layout, old(View()), dir, key, size, io)
    {
      SaveKeepsConsistent(layout, View(), dir, key, size, io);
      if io.lstat != Present {
        if io.lstat == Unreadable || !io.mkdirOk {
          return false;
        }
        dirs := dirs + {dir};
      }
      var resPath := layout.ProbPath(dir, key);
      if io.open == AlreadyThere {
        return true;
      }
      if io.open == Refused {
        return false;
      }
      UndoWrite(files, resPath, io.data);
      files := files[resPath := io.data];
      var err := !io.copyOk;
      if !err && size >= 0 && |io.data| != size {
        err := true;
      }
      if err {
        if io.rollbackOk {
          files := files - {resPath};
        }
        return false;
      }
      return true;
    }

    method SubmitResourceKeys(dir: string, keys: seq<string>)
      requires Valid() && PlainName(dir)
      requires forall key :: key in keys ==> Saved(layout, View(), dir, key)
      modifies this`probFiles, this`shaToKey
      ensures Valid() && View() == Submit(layout, old(View()), dir, keys)
    {
      SubmitEffect(layout, View(), dir, keys);
      ghost var before := View();
      for i := 0 to |keys|
        invariant View() == Submit(layout, before, dir, keys[..i])
      {
        SubmitOneMore(layout, before, dir, keys, i);
        probFiles := probFiles[StoreKey(dir, keys[i]) := keys[i]];
        shaToKey := shaToKey[Sha(layout.sha1, keys[i]) := keys[i]];
      }
      TakeAll(keys);
    }

    method EvictProblem(dir: string, io: EvictIO) returns (ok: bool)
      requires Valid() && PlainName(dir) && RealisticListing(layout, View(), dir, io)
      modifies this`probFiles, this`files, this`dirs
      ensures Valid() && (View(), ok) == Evict(layout, old(View()), dir, io)
    {
      EvictKeepsConsistent(layout, View(), dir, io);
      if !io.readOk {
        return false;
      }
      ghost var before := View();
      for i := 0 to |io.listing|
        invariant View() == Unindex(before, dir, io.listing[..i])
      {
        UnindexOneMore(before, dir, io.listing, i);
        var fileKey := dir + "/" + ShaKey(View(), io.listing[i]);
        probFiles := probFiles - {fileKey};
      }
      UnindexAll(before, dir, io.listing);
      files := Purged(layout, files, dir, io);
      if !io.removeOk {
        return false;
      }
      dirs := dirs - {dir};
      return true;
    }

    /** Names a new temporary file; refused when the file lies elsewhere. */
    method Add(name: string, path: string) returns (id: string, ok: bool)
      requires Valid()
      modifies this`tmpFiles
      ensures Valid() && (View(), ok) == Added(layout, old(View()), name, path)
      ensures ok ==> id == Base(path) && SlashFree(id)
    {
      AddEffect(layout, View(), name, path);
      if LiesIn(path, layout.TmpLoc()) {
        AddedIdIsFlat(layout, path);
        id := Base(path);
        tmpFiles := tmpFiles[id := name];
        return id, true;
      }
      return "", false;
    }

    /** Removes one temporary file; a file that cannot be deleted keeps its id. */
    method Remove(id: string, fails: bool) returns (removed: bool)
      requires Valid()
      modifies this`tmpFiles, this`files
      ensures Valid() && SameProblemFiles(layout, old(View()), View())
      ensures (View(), removed) == Removed(layout, old(View()), id, fails)
      ensures removed ==> id !in tmpFiles && files == old(files) - {layout.TmpPath(id)}
    {
      if id !in tmpFiles {
        return false;
      }
      if fails {
        return false;
      }
      RemoveTmpKeepsProblems(layout, View(), id, false);
      files := OsRemove(files, layout.TmpPath(id), false);
      tmpFiles := tmpFiles - {id};
      return true;
    }

    /** Removes temporary files in bulk; a file that cannot be deleted loses its id all the same. */
    method BulkRemove(ids: seq<string>, fails: nat -> bool) returns (count: nat, err: bool)
      requires Valid()
      modifies this`tmpFiles, this`files
      ensures Valid() && SameProblemFiles(layout, old(View()), View())
      ensures (View(), count) == BulkRemoved(layout, old(View()), ids, fails)
      ensures err == BulkFails(layout, old(View()), ids, fails)
      ensures count == |Known(old(View()), ids)|
    {
      ghost var before := View();
      BulkRemoveEffect(layout, before, ids, fails);
      count, err := 0, false;
      for i := 0 to |ids|
        invariant (View(), count) == BulkRemoved(layout, before, ids[..i], fails)
        invariant err == BulkFails(layout, before, ids[..i], fails)
      {
        BulkRemoveOneMore(layout, before, ids, fails, i);
        var loc := layout.TmpPath(ids[i]);
        if ids[i] !in tmpFiles {
          continue;
        }
        files := OsRemove(files, loc, fails(i));
        err := err || fails(i);
        count := count + 1;
        tmpFiles := tmpFiles - {ids[i]};
      }
      TakeAll(ids);
    }

    function Lookup(id: string): Found
      reads this
    {
      Get(layout, View(), id)
    }
  }
}
