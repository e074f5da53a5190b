/** Whole runs of the cache (resource/manager.go): which entries lose their files, and which never leave. */
module CacheRuns {
  import opened Cache
  import opened Digraph
  import opened FetchPool
  import opened FetchRuns
  import opened Paths
  import opened Problems
  import opened Seqs
  import opened Storage
  import opened SubtaskGraph

  /** The state after the first i calls. */
  ghost function StateAt(l: Layout, c: State, ops: seq<Op>, i: nat): State
    requires LegalRun(l, c, ops) && i <= |ops|
    decreases |ops|
  {
    if i == 0 then c else StateAt(l, Step(l, c, ops[0]), ops[1..], i - 1)
  }

  lemma {:induction false} StateAtSteps(l: Layout, c: State, ops: seq<Op>, i: nat)
    requires LegalRun(l, c, ops) && i < |ops| && CacheOk(l, c)
    ensures Legal(l, StateAt(l, c, ops, i), ops[i]) && CacheOk(l, StateAt(l, c, ops, i))
    ensures StateAt(l, c, ops, i + 1) == Step(l, StateAt(l, c, ops, i), ops[i])
    decreases |ops|
  {
    if i > 0 {
      StepKeepsCache(l, c, ops[0]);
      StateAtSteps(l, Step(l, c, ops[0]), ops[1..], i - 1);
    }
  }

  lemma {:induction false} StateAtEnd(l: Layout, c: State, ops: seq<Op>)
    requires LegalRun(l, c, ops)
    ensures StateAt(l, c, ops, |ops|) == AfterRun(l, c, ops)
    decreases |ops|
  {
    if ops != [] {
      StateAtEnd(l, Step(l, c, ops[0]), ops[1..]);
    }
  }

  // ----- which entries have lost their files

  /** The call evicts this entry, finds it unlocked, and can read its directory. */
  ghost predicate ReadsUnlocked(c: State, op: Op, key: string) {
    && op.Evicting? && key in op.order && key in op.ios
    && key in c.problems && c.problems[key].locks <= 0 && op.ios[key].readOk
  }

  lemma BrokenStep(l: Layout, c: State, op: Op, key: string)
    requires CacheOk(l, c) && Legal(l, c, op)
    ensures key in Step(l, c, op).broken
            <==> if ReadsUnlocked(c, op, key) then !op.ios[key].removeOk else key in c.broken
  {
    match op
    case PrepareThenLock(id, version, remote, end) => PreparedEntry(l, c, id, version, remote, end);
    case Evicting(order, ios) => EvictAllBreaks(l, c, order, ios, key);
    case _ =>
  }

  ghost predicate ReadsAt(l: Layout, c: State, ops: seq<Op>, key: string, i: nat)
    requires LegalRun(l, c, ops) && i < |ops|
  {
    ReadsUnlocked(StateAt(l, c, ops, i), ops[i], key)
  }

  /** Among the first n calls, the last eviction that read the unlocked entry's directory could not remove it. */
  ghost predicate LastRemovalFailed(l: Layout, c: State, ops: seq<Op>, key: string, n: nat)
    requires LegalRun(l, c, ops) && n <= |ops|
  {
    exists i :: 0 <= i < n && FailsLast(l, c, ops, key, n, i)
  }

  ghost predicate FailsLast(l: Layout, c: State, ops: seq<Op>, key: string, n: nat, i: nat)
    requires LegalRun(l, c, ops) && i < n <= |ops|
  {
    && ReadsAt(l, c, ops, key, i) && !ops[i].ios[key].removeOk
    && forall j :: i < j < n ==> !ReadsAt(l, c, ops, key, j)
  }

  lemma BrokenOneMore(l: Layout, c: State, ops: seq<Op>, key: string, n: nat)
    requires CacheOk(l, c) && LegalRun(l, c, ops) && n < |ops|
    ensures key in StateAt(l, c, ops, n + 1).broken
            <==> if ReadsAt(l, c, ops, key, n) then !ops[n].ios[key].removeOk else key in StateAt(l, c, ops, n).broken
  {
    StateAtSteps(l, c, ops, n);
    BrokenStep(l, StateAt(l, c, ops, n), ops[n], key);
  }

  lemma {:induction false} BrokenUpTo(l: Layout, c: State, ops: seq<Op>, key: string, n: nat)
    requires CacheOk(l, c) && LegalRun(l, c, ops) && n <= |ops| && c.broken == {}
    ensures key in StateAt(l, c, ops, n).broken <==> LastRemovalFailed(l, c, ops, key, n)
  {
    if n == 0 {
      NothingBrokenYet(l, c, ops, key);
    } else {
      BrokenUpTo(l, c, ops, key, n - 1);
      BrokenOneMore(l, c, ops, key, n - 1);
      LastRemovalStep(l, c, ops, key, n - 1);
    }
  }

  lemma NothingBrokenYet(l: Layout, c: State, ops: seq<Op>, key: string)
    requires LegalRun(l, c, ops) && c.broken == {}
    ensures key !in StateAt(l, c, ops, 0).broken && !LastRemovalFailed(l, c, ops, key, 0)
  {
  }

  lemma LastRemovalStep(l: Layout, c: State, ops: seq<Op>, key: string, n: nat)
    requires LegalRun(l, c, ops) && n < |ops|
    ensures LastRemovalFailed(l, c, ops, key, n + 1)
            <==> if ReadsAt(l, c, ops, key, n) then !ops[n].ios[key].removeOk else LastRemovalFailed(l, c, ops, key, n)
  {
    if ReadsAt(l, c, ops, key, n) {
      if !ops[n].ios[key].removeOk {
        assert FailsLast(l, c, ops, key, n + 1, n);
      }
    } else {
      if LastRemovalFailed(l, c, ops, key, n) {
        var i :| 0 <= i < n && FailsLast(l, c, ops, key, n, i);
        assert FailsLast(l, c, ops, key, n + 1, i);
      }
      if LastRemovalFailed(l, c, ops, key, n + 1) {
        var i :| 0 <= i < n + 1 && FailsLast(l, c, ops, key, n + 1, i);
        assert i < n && FailsLast(l, c, ops, key, n, i);
      }
    }
  }

  /** After any run, the entries that have lost their files are those whose last removal failed. */
  lemma BrokenIff(l: Layout, files: map<Path, Lines.Text>, dirs: set<string>, ops: seq<Op>, key: string)
    requires GoodDigest(l.sha1) && LegalRun(l, Empty(files, dirs), ops)
    ensures key in AfterRun(l, Empty(files, dirs), ops).broken
            <==> LastRemovalFailed(l, Empty(files, dirs), ops, key, |ops|)
  {
    BrokenUpTo(l, Empty(files, dirs), ops, key, |ops|);
    StateAtEnd(l, Empty(files, dirs), ops);
  }

  /** After any run, the resources of a cached problem can be read exactly if its last removal did not fail. */
  lemma AvailableAfterRunIff(l: Layout, files: map<Path, Lines.Text>, dirs: set<string>, ops: seq<Op>, key: string)
    requires GoodDigest(l.sha1) && LegalRun(l, Empty(files, dirs), ops)
    requires key in AfterRun(l, Empty(files, dirs), ops).problems
    ensures var c := AfterRun(l, Empty(files, dirs), ops);
            var p := c.problems[key].problem;
            Available(l, c, key)
            <==> Resources(p) == map[]
                 || (!LastRemovalFailed(l, Empty(files, dirs), ops, key, |ops|) && PlainResources(p))
  {
    RunKeepsCache(l, Empty(files, dirs), ops);
    BrokenIff(l, files, dirs, ops, key);
    AvailableIff(l, AfterRun(l, Empty(files, dirs), ops), key);
  }

  // ----- which entries never leave

  lemma {:induction false} EvictAllDirs(l: Layout, c: State, order: seq<string>, ios: map<string, EvictIO>)
    requires forall key :: key in order ==> key in ios
    ensures EvictAll(l, c, order, ios).store.dirs <= c.store.dirs
  {
    if order != [] {
      var n := |order| - 1;
      var before, key := EvictAll(l, c, order[..n], ios), order[n];
      EvictAllDirs(l, c, order[..n], ios);
      UnindexEffect(before.store, key, ios[key].listing);
    }
  }

  lemma NoDirectoryStep(l: Layout, c: State, op: Op, key: string)
    requires CacheOk(l, c) && Legal(l, c, op) && key in c.problems && key !in c.store.dirs
    ensures key in Step(l, c, op).problems && key !in Step(l, c, op).store.dirs
    ensures Step(l, c, op).problems[key].problem == c.problems[key].problem
  {
    match op
    case PrepareThenLock(id, version, remote, end) =>
      if NeedsFetch(l, c, id, version, remote) {
        FetchLeaves(l, c.store, remote.problem, end);
      }
    case Evicting(order, ios) =>
      EvictAllTakes(l, c, order, ios);
      EvictAllDirs(l, c, order, ios);
    case Temporary(tmp) => TmpStepKeepsProblems(l, c.store, tmp);
    case Release(_) =>
  }

  /** An entry without a directory never leaves the cache, whatever is called, and never gets a directory. */
  lemma {:induction false} NoDirectoryNoEviction(l: Layout, c: State, ops: seq<Op>, key: string)
    requires CacheOk(l, c) && LegalRun(l, c, ops) && key in c.problems && key !in c.store.dirs
    ensures key in AfterRun(l, c, ops).problems && key !in AfterRun(l, c, ops).store.dirs
    ensures AfterRun(l, c, ops).problems[key].problem == c.problems[key].problem
    decreases |ops|
  {
    if ops != [] {
      StepKeepsCache(l, c, ops[0]);
      NoDirectoryStep(l, c, ops[0], key);
      NoDirectoryNoEviction(l, Step(l, c, ops[0]), ops[1..], key);
    }
  }

  /** What reading this directory lists. */
  lemma ListDirectory(l: Layout, store: Store, dir: string) returns (listing: seq<string>)
    ensures forall name :: name in listing <==> l.ProbDir(dir) + [name] in store.files
  {
    var names := set path | path in store.files && |path| == |l.ProbDir(dir)| + 1 && l.ProbDir(dir) <= path
                   :: path[|path| - 1];
    listing := ListSet(names);
    forall name
      ensures name in listing <==> l.ProbDir(dir) + [name] in store.files
    {
      var path := l.ProbDir(dir) + [name];
      assert path[|path| - 1] == name;
      assert forall p :: |p| == |path| && l.ProbDir(dir) <= p && p[|p| - 1] == name ==> p == path;
    }
  }

  /** The directory of an unlocked entry decides whether some eviction can take it. */
  lemma EvictableIff(l: Layout, c: State, key: string)
    requires key in c.problems && c.problems[key].locks <= 0
    ensures (exists io :: RealisticListing(l, c.store, key, io) && key !in EvictOne(l, c, key, io).problems)
            <==> key in c.store.dirs
  {
    if key in c.store.dirs {
      var listing := ListDirectory(l, c.store, key);
      var io := EvictIO(true, listing, true, {});
      assert RealisticListing(l, c.store, key, io) && key !in EvictOne(l, c, key, io).problems;
    }
  }

  /** A fetch of nothing cannot fail. */
  lemma EmptyFetchSucceeds(l: Layout, store: Store, p: Problem, end: Pool)
    requires IsEnd(l, store, p, end) && Resources(p) == map[]
    ensures end.main == Done(true)
  {
    var job := JobFor(l, p);
    var actions :| IsRun(job, Init(job, store), actions) && After(job, Init(job, store), actions) == end;
    Outcome(job, store, actions);
    InitOk(job, store);
    RunOk(job, store, Init(job, store), actions);
    if end.flow.abandoned != [] {
      PlacesAtEnd(job, store, end, end.flow.abandoned[0]);
    }
  }

  /** A problem without resources, prepared where no directory of an earlier process is left, stays for good. */
  lemma WithoutResourcesStays(l: Layout, c: State, id: string, version: string, p: Problem, end: Pool, ops: seq<Op>)
    requires CacheOk(l, c) && LegalRun(l, c, [Op.PrepareThenLock(id, version, Fetched(p), end)] + ops)
    requires NeedsFetch(l, c, id, version, Fetched(p)) && Resources(p) == map[] && KeyOf(l.sha1, p) !in c.store.dirs
    ensures Prepare(l, c, id, version, Fetched(p), end).1 == Prepared(KeyOf(l.sha1, p), p)
    ensures var c' := AfterRun(l, c, [Op.PrepareThenLock(id, version, Fetched(p), end)] + ops);
            KeyOf(l.sha1, p) in c'.problems && c'.problems[KeyOf(l.sha1, p)].problem == p
  {
    var op := Op.PrepareThenLock(id, version, Fetched(p), end);
    assert ([op] + ops)[0] == op && ([op] + ops)[1..] == ops;
    NothingFetched(l, c.store, p, end);
    EmptyFetchSucceeds(l, c.store, p, end);
    StepKeepsCache(l, c, op);
    NoDirectoryNoEviction(l, Step(l, c, op), ops, KeyOf(l.sha1, p));
  }

  // ----- a run that hands out a problem without its files

  lemma FetchedHasDirectory(l: Layout, store: Store, p: Problem, end: Pool)
    requires IsEnd(l, store, p, end) && end.main == Done(true) && Resources(p) != map[]
    ensures KeyOf(l.sha1, p) in end.store.dirs
  {
    EndIsSubmitted(l, store, p, end);
    var res :| res in Resources(p);
    assert OnDisk(JobFor(l, p), store.(files := end.store.files, dirs := end.store.dirs), res);
    SubmitKeepsDisk(l, store.(files := end.store.files, dirs := end.store.dirs), KeyOf(l.sha1, p), end.flow.results);
  }

  /** An unlocked entry with a directory loses its files when their removal fails, and is handed out all the same. */
  lemma LosesFiles(l: Layout, c: State, key: string) returns (evict: Op)
    requires CacheOk(l, c) && key in c.problems && c.problems[key].locks <= 0 && key in c.store.dirs
    requires Resources(c.problems[key].problem) != map[]
    ensures Legal(l, c, evict) && key in Step(l, c, evict).problems
    ensures Step(l, c, evict).problems[key] == c.problems[key]
    ensures CacheOk(l, Locked(Step(l, c, evict), key)) && !Available(l, Locked(Step(l, c, evict), key), key)
  {
    var listing := ListDirectory(l, c.store, key);
    var order, ios := [key], map[key := EvictIO(true, listing, false, {})];
    evict := Evicting(order, ios);
    EvictAllTakes(l, c, order, ios);
    EvictAllBreaks(l, c, order, ios, key);
    StepKeepsCache(l, c, evict);
    LockedOk(l, Step(l, c, evict), key);
    AvailableIff(l, Locked(Step(l, c, evict), key), key);
  }

  lemma ThreeSteps(l: Layout, c: State, a: Op, b: Op, d: Op)
    requires Legal(l, c, a) && Legal(l, Step(l, c, a), b) && Legal(l, Step(l, Step(l, c, a), b), d)
    ensures LegalRun(l, c, [a, b, d])
    ensures AfterRun(l, c, [a, b, d]) == Step(l, Step(l, Step(l, c, a), b), d)
  {
    var c1 := Step(l, c, a);
    var c2 := Step(l, c1, b);
    assert [a, b, d][1..] == [b, d] && [b, d][1..] == [d];
    OneStep(l, c2, d);
    assert LegalRun(l, c1, [b, d]) && AfterRun(l, c1, [b, d]) == AfterRun(l, c2, [d]);
  }

  lemma OneStep(l: Layout, c: State, op: Op)
    requires Legal(l, c, op)
    ensures LegalRun(l, c, [op]) && AfterRun(l, c, [op]) == Step(l, c, op)
  {
    assert [op][1..] == [];
    assert AfterRun(l, Step(l, c, op), []) == Step(l, c, op);
  }

  /**
   * For every admitted problem with resources: prepared, unlocked, and evicted by a removal that fails half-way, it is
   * still handed out, without its files.
   */
  lemma AnyProblemCanLoseItsFiles(l: Layout, p: Problem) returns (ops: seq<Op>, last: Op)
    requires GoodDigest(l.sha1) && Resources(p) != map[] && Acyclic(Ids(p.subtasks), DependencyEdges(p.subtasks))
    ensures LegalRun(l, Empty(map[], {}), ops) && last.PrepareThenLock?
    ensures var c := AfterRun(l, Empty(map[], {}), ops);
            && Legal(l, c, last)
            && var (c', answer) := Prepare(l, c, p.id, p.ver, last.remote, last.end);
            answer == Prepared(KeyOf(l.sha1, p), p) && KeyOf(l.sha1, p) in c'.problems
            && !Available(l, c', KeyOf(l.sha1, p))
  {
    var c0, key, job := Empty(map[], {}), KeyOf(l.sha1, p), JobFor(l, p);
    var actions := SuccessIsPossible(job, c0.store);
    var end := After(job, Init(job, c0.store), actions);
    var prepare := Op.PrepareThenLock(p.id, p.ver, Fetched(p), end);
    assert IsEnd(l, c0.store, p, end) && Legal(l, c0, prepare);
    FetchedHasDirectory(l, c0.store, p, end);
    StepKeepsCache(l, c0, prepare);
    var c1 := Step(l, c0, prepare);
    StepKeepsCache(l, c1, Release(key));
    var evict := LosesFiles(l, Step(l, c1, Release(key)), key);
    ops := [prepare, Release(key), evict];
    last := Op.PrepareThenLock(p.id, p.ver, Unreachable, end);
    ThreeSteps(l, c0, prepare, Release(key), evict);
  }

  // ----- a problem in use

  /**
   * After any run, a problem with an outstanding unlock function is handed out again at once: whatever the backend
   * answers, and without touching the store.
   */
  lemma InUseIsGranted(l: Layout, files: map<Path, Lines.Text>, dirs: set<string>, ops: seq<Op>, key: string,
                       remote: Remote, end: Pool)
    requires GoodDigest(l.sha1) && LegalRun(l, Empty(files, dirs), ops)
    requires key in AfterRun(l, Empty(files, dirs), ops).handles
    ensures var c := AfterRun(l, Empty(files, dirs), ops);
            && key in c.problems
            && var p := c.problems[key].problem;
               var (c', answer) := Prepare(l, c, p.id, p.ver, remote, end);
               answer == Prepared(key, p) && c'.store == c.store && c'.handles[key] == c.handles[key] + 1
  {
    RunKeepsCache(l, Empty(files, dirs), ops);
    assert EntryOk(l, AfterRun(l, Empty(files, dirs), ops), key);
  }

  // ----- the sizes of files

  /** The size that a resource should have, by entry and resource key; negative if unknown. */
  type Sizes = (string, string) -> int

  /** The backend declares the same sizes whenever it sends this problem. */
  ghost predicate Declares(l: Layout, p: Problem, sizes: Sizes) {
    forall res :: res in Resources(p) ==> Resources(p)[res] == sizes(KeyOf(l.sha1, p), res)
  }

  /** The pool has come to this end without ever leaving a file of the wrong size behind. */
  ghost predicate IsCleanEnd(l: Layout, store: Store, p: Problem, end: Pool) {
    exists actions ::
      IsRun(JobFor(l, p), Init(JobFor(l, p), store), actions)
      && After(JobFor(l, p), Init(JobFor(l, p), store), actions) == end
      && forall res :: res in Resources(p) ==> !LeavesShortIn(JobFor(l, p), Init(JobFor(l, p), store), actions, res)
  }

  ghost predicate IsClean(l: Layout, c: State, op: Op, sizes: Sizes) {
    op.PrepareThenLock? && NeedsFetch(l, c, op.id, op.version, op.remote) ==>
      Declares(l, op.remote.problem, sizes) && IsCleanEnd(l, c.store, op.remote.problem, op.end)
  }

  ghost predicate CleanRun(l: Layout, c: State, ops: seq<Op>, sizes: Sizes)
    requires LegalRun(l, c, ops)
    decreases |ops|
  {
    ops == [] || (IsClean(l, c, ops[0], sizes) && CleanRun(l, Step(l, c, ops[0]), ops[1..], sizes))
  }

  ghost predicate IsWhole(l: Layout, path: Path, data: Lines.Text, sizes: Sizes) {
    exists dir, res :: path == l.ProbPath(dir, res) && (sizes(dir, res) < 0 || |data| == sizes(dir, res))
  }

  /** Every file is as it was at first, or a resource of the right size. */
  ghost predicate FilesWhole(l: Layout, files0: map<Path, Lines.Text>, files: map<Path, Lines.Text>, sizes: Sizes) {
    forall path :: path in files ==> (path in files0 && files[path] == files0[path])
                                     || IsWhole(l, path, files[path], sizes)
  }

  lemma FetchKeepsWhole(l: Layout, files0: map<Path, Lines.Text>, store: Store, p: Problem, end: Pool, sizes: Sizes)
    requires GoodDigest(l.sha1) && Declares(l, p, sizes) && IsCleanEnd(l, store, p, end)
    requires FilesWhole(l, files0, store.files, sizes)
    ensures FilesWhole(l, files0, end.store.files, sizes)
  {
    var job := JobFor(l, p);
    var actions :| IsRun(job, Init(job, store), actions) && After(job, Init(job, store), actions) == end
                   && forall res :: res in Resources(p) ==> !LeavesShortIn(job, Init(job, store), actions, res);
    InitOk(job, store);
    RunOk(job, store, Init(job, store), actions);
    RunWritesOwn(job, store, Init(job, store), actions);
    forall path | path in end.store.files
      ensures (path in files0 && end.store.files[path] == files0[path])
              || IsWhole(l, path, end.store.files[path], sizes)
    {
      if path !in store.files {
        assert IsRequested(job, path);
        var res :| res in job.sizes && path == job.layout.ProbPath(job.dir, res);
        ShortRun(job, store, Init(job, store), actions, res);
        assert path == l.ProbPath(KeyOf(l.sha1, p), res);
      }
    }
  }

  lemma {:induction false} EvictAllFiles(l: Layout, c: State, order: seq<string>, ios: map<string, EvictIO>)
    requires forall key :: key in order ==> key in ios
    ensures var files := EvictAll(l, c, order, ios).store.files;
            forall path :: path in files ==> path in c.store.files && files[path] == c.store.files[path]
  {
    if order != [] {
      var n := |order| - 1;
      var before, key := EvictAll(l, c, order[..n], ios), order[n];
      EvictAllFiles(l, c, order[..n], ios);
      UnindexEffect(before.store, key, ios[key].listing);
    }
  }

  lemma {:induction false} BulkRemoveFiles(l: Layout, st: Store, ids: seq<string>, fails: nat -> bool)
    ensures var files := BulkRemoved(l, st, ids, fails).0.files;
            forall path :: path in files ==> path in st.files && files[path] == st.files[path]
  {
    if ids != [] {
      BulkRemoveFiles(l, st, ids[..|ids| - 1], fails);
    }
  }

  lemma StepKeepsWhole(l: Layout, files0: map<Path, Lines.Text>, c: State, op: Op, sizes: Sizes)
    requires GoodDigest(l.sha1) && Legal(l, c, op) && IsClean(l, c, op, sizes)
    requires FilesWhole(l, files0, c.store.files, sizes)
    ensures FilesWhole(l, files0, Step(l, c, op).store.files, sizes)
  {
    match op
    case PrepareThenLock(id, version, remote, end) =>
      if NeedsFetch(l, c, id, version, remote) {
        FetchKeepsWhole(l, files0, c.store, remote.problem, end, sizes);
      }
    case Evicting(order, ios) => EvictAllFiles(l, c, order, ios);
    case Temporary(tmp) =>
      if tmp.RemoveFiles? {
        BulkRemoveFiles(l, c.store, tmp.ids, tmp.failing);
      }
    case Release(_) =>
  }

  /**
   * Over whole runs, across failed fetches and failed removals: if no attempt leaves a file of the wrong size behind,
   * every file is one that was there at first or has the size declared.
   */
  lemma {:induction false} RunKeepsWhole(l: Layout, files0: map<Path, Lines.Text>, c: State, ops: seq<Op>,
                                         sizes: Sizes)
    requires GoodDigest(l.sha1) && LegalRun(l, c, ops) && CleanRun(l, c, ops, sizes)
    requires FilesWhole(l, files0, c.store.files, sizes)
    ensures FilesWhole(l, files0, AfterRun(l, c, ops).store.files, sizes)
    decreases |ops|
  {
    if ops != [] {
      StepKeepsWhole(l, files0, c, ops[0], sizes);
      RunKeepsWhole(l, files0, Step(l, c, ops[0]), ops[1..], sizes);
    }
  }
}
