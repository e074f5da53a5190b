/** Temporary files from Add to Remove (resource/filestore.go): which are there, and under which names. */
module TempFiles {
  import opened Paths
  import opened Seqs
  import opened Storage

  // ----- adding

  lemma SplitStep(c: char, s: string)
    ensures Split([c] + s) == if c == '/' then [""] + Split(s) else [[c] + Split(s)[0]] + Split(s)[1..]
  {
    DropAppend([c], s);
  }

  lemma FirstApart(a: string, b: string)
    requires a != ""
    ensures a + "/" + b == [a[0]] + (a[1..] + "/" + b) && a == [a[0]] + a[1..]
  {
  }

  lemma FirstGrows(first: string, parts: seq<string>, more: seq<string>)
    requires parts != []
    ensures [first + (parts + more)[0]] + (parts + more)[1..] == [first + parts[0]] + parts[1..] + more
  {
  }

  lemma {:induction false} SplitConcat(a: string, b: string)
    ensures Split(a + "/" + b) == Split(a) + Split(b)
  {
    if a == "" {
      SplitStep('/', b);
      assert a + "/" + b == "/" + b;
    } else {
      SplitConcat(a[1..], b);
      FirstApart(a, b);
      SplitStep(a[0], a[1..] + "/" + b);
      SplitStep(a[0], a[1..]);
      if a[0] == '/' {
        ConcatAssociative([""], Split(a[1..]), Split(b));
      } else {
        FirstGrows([a[0]], Split(a[1..]), Split(b));
      }
    }
  }

  lemma {:induction false} WalkConcat(base: Path, a: seq<string>, b: seq<string>)
    ensures Walk(base, a + b) == Walk(Walk(base, a), b)
    decreases |a|
  {
    if a == [] {
      assert a + b == b;
    } else {
      assert (a + b)[1..] == a[1..] + b;
      var next := if a[0] == "" || a[0] == "." then base
                  else if a[0] == ".." then (if base == [] then [] else base[..|base| - 1])
                  else base + [a[0]];
      WalkConcat(next, a[1..], b);
    }
  }

  lemma WithoutLast(dir: string, file: string, n: nat)
    requires |file| == n + 1
    ensures var s := dir + "/" + file;
            s != "" && s[|s| - 1] == file[n] && s[..|s| - 1] == dir + "/" + file[..n]
    ensures file == file[..n] + [file[n]]
  {
  }

  lemma {:induction false} LastPartOf(dir: string, file: string)
    requires SlashFree(file)
    ensures LastPart(dir + "/" + file) == file && DirPart(dir + "/" + file) == dir + "/"
    decreases |file|
  {
    if file == "" {
      assert dir + "/" + file == dir + "/";
    } else {
      var n := |file| - 1;
      WithoutLast(dir, file, n);
      LastPartOf(dir, file[..n]);
    }
  }

  lemma BaseOf(dir: string, file: string)
    requires PlainName(file)
    ensures Base(dir + "/" + file) == file
  {
    var s := dir + "/" + file;
    assert s[|s| - 1] == file[|file| - 1];
    LastPartOf(dir, file);
  }

  lemma WalkOfDir(dir: string)
    ensures Walk([], Split(dir + "/")) == Walk([], Split(dir))
  {
    SplitConcat(dir, "");
    assert dir + "/" + "" == dir + "/";
    WalkConcat([], Split(dir), [""]);
    assert [""][1..] == [];
  }

  /** A file is accepted exactly if its path leads into the temporary directory; its name is the id. */
  lemma AddedIff(l: Layout, st: Store, name: string, dir: string, file: string)
    requires PlainName(file)
    ensures Added(l, st, name, dir + "/" + file)
         == if (dir + "/")[0] == '/' && Walk([], Split(dir + "/" + file)) == l.TmpLoc() + [file]
            then (st.(tmpFiles := st.tmpFiles[file := name]), true) else (st, false)
  {
    var path := dir + "/" + file;
    assert path[0] == (dir + "/")[0];
    BaseOf(dir, file);
    LastPartOf(dir, file);
    WalkOfDir(dir);
    SplitConcat(dir, file);
    SplitSlashFree(file);
    WalkConcat([], Split(dir), [file]);
    WalkSlashFree(Walk([], Split(dir)), file);
    var parent := Walk([], Split(dir));
    assert parent + [file] == l.TmpLoc() + [file] <==> parent == l.TmpLoc() by {
      DropAppend(parent, [file]);
      DropAppend(l.TmpLoc(), [file]);
      assert parent + [file] == l.TmpLoc() + [file] ==> |parent| == |l.TmpLoc()|;
    }
  }

  /** An absolute path, spelt out. */
  function Spell(path: Path): string {
    if path == [] then "" else Spell(path[..|path| - 1]) + "/" + path[|path| - 1]
  }

  ghost predicate PlainPath(path: Path) {
    forall i :: 0 <= i < |path| ==> PlainName(path[i])
  }

  lemma {:induction false} SpeltLeadsThere(path: Path)
    requires PlainPath(path)
    ensures Walk([], Split(Spell(path))) == path
    ensures path != [] ==> Spell(path) != "" && Spell(path)[0] == '/'
  {
    if path == [] {
      assert [""][1..] == [];
    } else {
      var n := |path| - 1;
      SpeltLeadsThere(path[..n]);
      SplitConcat(Spell(path[..n]), path[n]);
      SplitSlashFree(path[n]);
      WalkConcat([], Split(Spell(path[..n])), [path[n]]);
      WalkSlashFree(path[..n], path[n]);
      TakeOneMore(path, n);
      TakeAll(path);
    }
  }

  /** A file in the temporary directory, added under a name: its file name becomes the id, and the name is recorded. */
  lemma AddedId(l: Layout, st: Store, name: string, file: string)
    requires PlainPath(l.root) && PlainName(file)
    ensures Added(l, st, name, Spell(l.TmpLoc()) + "/" + file) == (st.(tmpFiles := st.tmpFiles[file := name]), true)
  {
    var dir := Spell(l.TmpLoc());
    assert PlainPath(l.TmpLoc());
    SpeltLeadsThere(l.TmpLoc());
    AddedIff(l, st, name, dir, file);
    SplitConcat(dir, file);
    SplitSlashFree(file);
    WalkConcat([], Split(dir), [file]);
    WalkSlashFree(l.TmpLoc(), file);
  }

  /** A final slash does not change the file name. */
  lemma BaseOfSlash(path: string)
    requires path != ""
    ensures Base(path + "/") == Base(path)
  {
    assert (path + "/")[..|path|] == path;
  }

  /** The temporary directory itself, with a final slash, is accepted as well, and its own name becomes an id. */
  lemma DirectoryIsAdded(l: Layout, st: Store, name: string)
    requires PlainPath(l.root)
    ensures Added(l, st, name, Spell(l.TmpLoc()) + "/") == (st.(tmpFiles := st.tmpFiles["tmp" := name]), true)
  {
    var dir := Spell(l.TmpLoc());
    assert PlainPath(l.TmpLoc()) && l.TmpLoc()[..|l.root|] == l.root;
    SpeltLeadsThere(l.TmpLoc());
    BaseOfSlash(dir);
    BaseOf(Spell(l.root), "tmp");
    LastPartOf(dir, "");
    assert dir + "/" + "" == dir + "/";
    WalkOfDir(dir);
  }

  // ----- looking up

  /** The place of a plain id, which is no directory of the store. */
  lemma TmpPlace(l: Layout, st: Store, id: string)
    requires PlainName(id)
    ensures l.TmpPath(id) == l.TmpLoc() + [id]
    ensures Exists(l, st, l.TmpPath(id)) <==> l.TmpPath(id) in st.files
    ensures !("problem/" <= id)
  {
    WalkSlashFree(l.TmpLoc(), id);
    var path := l.TmpPath(id);
    assert path[|l.root|] == "tmp";
    assert forall dir :: l.ProbDir(dir)[|l.root|] == "persistent";
    assert "problem/"[7] == '/';
  }

  /** A temporary file is found exactly if it is on disk, under the name it was added with, or under its id. */
  lemma TmpFoundIff(l: Layout, st: Store, id: string)
    requires PlainName(id)
    ensures Get(l, st, id)
         == if l.TmpPath(id) in st.files
            then Found(if id in st.tmpFiles then st.tmpFiles[id] else id, l.TmpLoc() + [id]) else NotFound
  {
    TmpPlace(l, st, id);
  }

  /** The empty id and the dot names lead to directories, which always exist, so they are found without any file. */
  lemma DotsFindDirectories(l: Layout, st: Store, id: string)
    requires id == "" || id == "." || id == ".."
    ensures Get(l, st, id)
         == Found(if id in st.tmpFiles then st.tmpFiles[id] else id, if id == ".." then l.root else l.TmpLoc())
  {
    WalkSlashFree(l.TmpLoc(), id);
    assert l.TmpLoc()[..|l.TmpLoc()| - 1] == l.root;
  }

  /** An added file is found under the name it was added with. */
  lemma AddedIsFound(l: Layout, st: Store, name: string, file: string)
    requires PlainPath(l.root) && PlainName(file) && l.TmpLoc() + [file] in st.files
    ensures var st' := Added(l, st, name, Spell(l.TmpLoc()) + "/" + file).0;
            Get(l, st', file) == Found(name, l.TmpLoc() + [file])
  {
    AddedId(l, st, name, file);
    TmpPlace(l, st, file);
    TmpFoundIff(l, Added(l, st, name, Spell(l.TmpLoc()) + "/" + file).0, file);
  }

  // ----- removing one file

  ghost predicate SameContents(files: map<Path, Lines.Text>, files': map<Path, Lines.Text>) {
    forall path :: path in files' ==> path in files && files'[path] == files[path]
  }

  /** Removing succeeds for a known id whose file can be deleted: then this file is gone, and no other. */
  lemma RemovedFile(l: Layout, st: Store, id: string, fails: bool)
    ensures var (st', ok) := Removed(l, st, id, fails);
            && (ok <==> id in st.tmpFiles && !fails)
            && (!ok ==> st' == st)
            && (ok ==>
                  && l.TmpPath(id) !in st'.files && id !in st'.tmpFiles && SameContents(st.files, st'.files)
                  && (forall path :: path in st.files && path != l.TmpPath(id) ==> path in st'.files)
                  && st'.tmpFiles == st.tmpFiles - {id})
  {
  }

  /** What was removed is not found any more. */
  lemma RemovedIsNotFound(l: Layout, st: Store, id: string)
    requires PlainName(id) && id in st.tmpFiles
    ensures Get(l, Removed(l, st, id, false).0, id) == NotFound
  {
    TmpFoundIff(l, Removed(l, st, id, false).0, id);
  }

  // ----- removing in bulk

  /** The i-th id is a known one, mentioned for the first time, and the file at this path, its own, can be deleted. */
  ghost predicate DeletesAt(l: Layout, st: Store, ids: seq<string>, fails: nat -> bool, i: nat, path: Path)
    requires i < |ids|
  {
    ids[i] in st.tmpFiles && ids[i] !in ids[..i] && !fails(i) && path == l.TmpPath(ids[i])
  }

  ghost predicate Deletes(l: Layout, st: Store, ids: seq<string>, fails: nat -> bool, path: Path) {
    exists i :: 0 <= i < |ids| && DeletesAt(l, st, ids, fails, i, path)
  }

  lemma DeletesOneMore(l: Layout, st: Store, ids: seq<string>, fails: nat -> bool, path: Path)
    requires ids != []
    ensures var n := |ids| - 1;
            Deletes(l, st, ids, fails, path)
            <==> Deletes(l, st, ids[..n], fails, path) || DeletesAt(l, st, ids, fails, n, path)
  {
    var n := |ids| - 1;
    forall i | 0 <= i < n
      ensures DeletesAt(l, st, ids, fails, i, path) <==> DeletesAt(l, st, ids[..n], fails, i, path)
    {
      assert ids[..n][..i] == ids[..i];
    }
  }

  /** Exactly the files go whose known id did not fail at its first mention. */
  lemma {:induction false} BulkDeletesIff(l: Layout, st: Store, ids: seq<string>, fails: nat -> bool, path: Path)
    ensures var files := BulkRemoved(l, st, ids, fails).0.files;
            && (path in files <==> path in st.files && !Deletes(l, st, ids, fails, path))
            && (path in files ==> files[path] == st.files[path])
  {
    if ids != [] {
      BulkDeletesIff(l, st, ids[..|ids| - 1], fails, path);
      BulkRemoveForgets(l, st, ids[..|ids| - 1], fails);
      DeletesOneMore(l, st, ids, fails, path);
    }
  }

  /** The first mention of a known id, whose file can be deleted. */
  ghost predicate SucceedsAt(st: Store, ids: seq<string>, fails: nat -> bool, i: nat, id: string)
    requires i < |ids|
  {
    ids[i] == id && id in st.tmpFiles && id !in ids[..i] && !fails(i)
  }

  lemma PlainPathsDiffer(l: Layout, id: string, id': string)
    requires PlainName(id) && SlashFree(id') && l.TmpPath(id) == l.TmpPath(id')
    ensures id == id'
  {
    WalkSlashFree(l.TmpLoc(), id);
    WalkSlashFree(l.TmpLoc(), id');
    assert (l.TmpLoc() + [id])[|l.root| + 1] == id;
    assert |l.TmpPath(id')| == |l.root| + 2;
  }

  /** After a bulk removal a file is found exactly if it was there and not deleted, under its id once forgotten. */
  lemma BulkRemovedFoundIff(l: Layout, st: Store, ids: seq<string>, fails: nat -> bool, id: string)
    requires TmpIdsFlat(st) && PlainName(id)
    ensures Get(l, BulkRemoved(l, st, ids, fails).0, id)
         == if l.TmpPath(id) in st.files && !(exists i :: 0 <= i < |ids| && SucceedsAt(st, ids, fails, i, id))
            then Found(if id in st.tmpFiles && id !in ids then st.tmpFiles[id] else id, l.TmpLoc() + [id])
            else NotFound
  {
    var st' := BulkRemoved(l, st, ids, fails).0;
    forall i | 0 <= i < |ids|
      ensures DeletesAt(l, st, ids, fails, i, l.TmpPath(id)) <==> SucceedsAt(st, ids, fails, i, id)
    {
      if DeletesAt(l, st, ids, fails, i, l.TmpPath(id)) {
        PlainPathsDiffer(l, id, ids[i]);
      }
    }
    BulkDeletesIff(l, st, ids, fails, l.TmpPath(id));
    BulkRemoveForgets(l, st, ids, fails);
    TmpFoundIff(l, st', id);
  }
}
