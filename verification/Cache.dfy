/** The cache of prepared problems (resource/manager.go) as a function of its state, and what all its runs keep. */
module Cache {
  import opened Digraph
  import opened FetchPool
  import opened Paths
  import opened Problems
  import opened Seqs
  import opened Storage
  import opened SubtaskGraph

  datatype Entry = Entry(locks: int, id: string, version: string, problem: Problem)

  function EntryKey(sha1: Digest, id: string, version: string): string {
    sha1(id + "/" + version)
  }

  function KeyOf(sha1: Digest, p: Problem): string {
    EntryKey(sha1, p.id, p.ver)
  }

  function ResKey(sha1: Digest, p: Problem, key: string): string {
    "problem/" + StoreKey(KeyOf(sha1, p), key)
  }

  /** A 64-bit size read as signed. */
  function AsInt64(n: nat): (size: int)
    ensures n < 0x8000_0000_0000_0000 ==> size == n
    ensures -0x8000_0000_0000_0000 <= size < 0x8000_0000_0000_0000 && (size - n) % 0x1_0000_0000_0000_0000 == 0
  {
    var m := n % 0x1_0000_0000_0000_0000;
    if m < 0x8000_0000_0000_0000 then m else m - 0x1_0000_0000_0000_0000
  }

  function CaseResources(p: Problem, cases: seq<TestCase>, sizes: map<string, int>): map<string, int> {
    if cases == [] then sizes
    else
      var last := cases[|cases| - 1];
      var before := CaseResources(p, cases[..|cases| - 1], sizes)[last.inputKey := AsInt64(last.inputSize)];
      if p.kind == SPECIAL then before else before[last.outputKey := AsInt64(last.outputSize)]
  }

  function SubtaskResources(p: Problem, subtasks: seq<Subtask>): map<string, int> {
    if subtasks == [] then map[]
    else CaseResources(p, subtasks[|subtasks| - 1].testCases, SubtaskResources(p, subtasks[..|subtasks| - 1]))
  }

  /** The resources to fetch, each with the size it should have. */
  function Resources(p: Problem): map<string, int> {
    var sizes := SubtaskResources(p, p.subtasks);
    (if p.kind == SPECIAL then sizes[p.spjBinaryKey := -1] else sizes) - {""}
  }

  ghost predicate CaseUses(p: Problem, c: TestCase, key: string) {
    key == c.inputKey || (p.kind != SPECIAL && key == c.outputKey)
  }

  /** A test case's input, its reference output unless a special judge decides, or that judge. */
  ghost predicate IsResource(p: Problem, key: string) {
    && key != ""
    && (|| (p.kind == SPECIAL && key == p.spjBinaryKey)
        || exists s, c :: s in p.subtasks && c in s.testCases && CaseUses(p, c, key))
  }

  lemma {:induction false} CaseResourcesIff(p: Problem, cases: seq<TestCase>, sizes: map<string, int>, key: string)
    ensures key in CaseResources(p, cases, sizes)
            <==> key in sizes || exists c :: c in cases && CaseUses(p, c, key)
  {
    if cases != [] {
      var n := |cases| - 1;
      CaseResourcesIff(p, cases[..n], sizes, key);
      assert forall c :: c in cases <==> c in cases[..n] || c == cases[n];
      assert key in CaseResources(p, cases, sizes)
             <==> key in CaseResources(p, cases[..n], sizes) || CaseUses(p, cases[n], key);
    }
  }

  lemma {:induction false} SubtaskResourcesIff(p: Problem, subtasks: seq<Subtask>, key: string)
    ensures key in SubtaskResources(p, subtasks)
            <==> exists s, c :: s in subtasks && c in s.testCases && CaseUses(p, c, key)
  {
    if subtasks != [] {
      var n := |subtasks| - 1;
      SubtaskResourcesIff(p, subtasks[..n], key);
      CaseResourcesIff(p, subtasks[n].testCases, SubtaskResources(p, subtasks[..n]), key);
      assert forall s :: s in subtasks <==> s in subtasks[..n] || s == subtasks[n];
    }
  }

  lemma ResourcesIff(p: Problem, key: string)
    ensures key in Resources(p) <==> IsResource(p, key)
  {
    SubtaskResourcesIff(p, p.subtasks, key);
  }

  /** Of two ids one extends the other by a slash and more. */
  predicate Extends(longer: string, shorter: string) {
    shorter + "/" <= longer
  }

  /** The version under which the shorter id gets the key that the longer one has under v. */
  function Shifted(longer: string, shorter: string, v: string): string
    requires Extends(longer, shorter)
  {
    longer[|shorter| + 1..] + "/" + v
  }

  lemma ShiftedCollides(sha1: Digest, longer: string, shorter: string, v: string)
    requires Extends(longer, shorter)
    ensures EntryKey(sha1, longer, v) == EntryKey(sha1, shorter, Shifted(longer, shorter, v))
  {
    var rest := longer[|shorter| + 1..];
    assert longer == shorter + "/" + rest;
    ConcatAssociative(shorter + "/" + rest, "/", v);
    ConcatAssociative(shorter + "/", rest, "/" + v);
    ConcatAssociative(rest, "/", v);
  }

  lemma CollidingExtends(id: string, v: string, id': string, v': string)
    requires id + "/" + v == id' + "/" + v' && |id| < |id'|
    ensures Extends(id', id)
  {
    var s := id + "/" + v;
    DropAppend(id + "/", v);
    assert s[..|id| + 1] == id'[..|id| + 1];
  }

  /** Different ids can share an entry exactly if one extends the other by a slash. */
  lemma KeysCollideIff(sha1: Digest, id: string, id': string)
    requires GoodDigest(sha1) && id != id'
    ensures (exists v, v' :: EntryKey(sha1, id, v) == EntryKey(sha1, id', v')) <==> Extends(id, id') || Extends(id', id)
  {
    if Extends(id, id') {
      ShiftedCollides(sha1, id, id', "");
    }
    if Extends(id', id) {
      ShiftedCollides(sha1, id', id, "");
      assert EntryKey(sha1, id, Shifted(id', id, "")) == EntryKey(sha1, id', "");
    }
    if v, v' :| EntryKey(sha1, id, v) == EntryKey(sha1, id', v') {
      SameKeySameText(sha1, id, v, id', v');
      if |id| < |id'| {
        CollidingExtends(id, v, id', v');
      } else if |id'| < |id| {
        CollidingExtends(id', v', id, v);
      } else {
        SameLengthSameId(id, v, id', v');
      }
    }
  }

  lemma SameLengthSameId(id: string, v: string, id': string, v': string)
    requires id + "/" + v == id' + "/" + v' && |id| == |id'|
    ensures id == id'
  {
    assert id == (id + "/" + v)[..|id|] && id' == (id' + "/" + v')[..|id|];
  }

  lemma ExtendsHasSlash(longer: string, shorter: string)
    requires Extends(longer, shorter)
    ensures !SlashFree(longer)
  {
    assert longer[|shorter|] == '/';
  }

  lemma SameKeySameText(sha1: Digest, id: string, v: string, id': string, v': string)
    requires GoodDigest(sha1) && EntryKey(sha1, id, v) == EntryKey(sha1, id', v')
    ensures id + "/" + v == id' + "/" + v'
  {
  }

  /** Two problems with slash-free ids share an entry only if they agree in id and version. */
  lemma EntryKeyInjective(sha1: Digest, id: string, ver: string, id': string, ver': string)
    requires GoodDigest(sha1) && SlashFree(id) && SlashFree(id')
    requires EntryKey(sha1, id, ver) == EntryKey(sha1, id', ver')
    ensures id == id' && ver == ver'
  {
    if id != id' {
      KeysCollideIff(sha1, id, id');
      if Extends(id, id') {
        ExtendsHasSlash(id, id');
      } else {
        ExtendsHasSlash(id', id);
      }
    }
    SameKeySameText(sha1, id, ver, id', ver');
    DropAppend(id + "/", ver);
    DropAppend(id' + "/", ver');
  }

  /** Without that, the ids "a" and "a/b" can be confused. */
  lemma SlashedIdsCollide(sha1: Digest)
    ensures EntryKey(sha1, "a/b", "c") == EntryKey(sha1, "a", "b/c")
  {
    assert "a/b" == "a" + "/" + "b" && "b/c" == "b" + "/" + "c";
    ShiftedCollides(sha1, "a/b", "a", "c");
  }

  // ----- the state of the cache

  /**
   * The cached problems and the file store, with the unlock functions that are still to be called, by entry, and the
   * entries whose files were lost because removing their directory failed half-way.
   */
  datatype State = State(problems: map<string, Entry>, store: Store, handles: multiset<string>,
                         broken: set<string>)

  datatype Remote = Fetched(problem: Problem) | Unreachable

  /** The outcome of PrepareThenLock: the problem, and the entry that its unlock function is for, or an error. */
  datatype Answer = Prepared(key: string, problem: Problem) | Rejected

  function JobFor(l: Layout, p: Problem): Job {
    Job(l, KeyOf(l.sha1, p), Resources(p))
  }

  /** The pool has run for this problem, in some interleaving, to this end. */
  ghost predicate IsEnd(l: Layout, store: Store, p: Problem, end: Pool) {
    && end.main.Done?
    && exists actions ::
         IsRun(JobFor(l, p), Init(JobFor(l, p), store), actions)
         && After(JobFor(l, p), Init(JobFor(l, p), store), actions) == end
  }

  /** The resources are named so that a resource id can spell them. */
  ghost predicate PlainResources(p: Problem) {
    forall key :: key in Resources(p) ==> PlainName(key)
  }

  ghost function Locked(c: State, key: string): State
    requires key in c.problems
  {
    var e := c.problems[key];
    c.(problems := c.problems[key := e.(locks := e.locks + 1)], handles := c.handles + multiset{key})
  }

  function FromProblem(p: Problem): Entry {
    Entry(0, p.id, p.ver, p)
  }

  /** The problem is fetched and verified only when no entry is found under either key. */
  ghost predicate NeedsFetch(l: Layout, c: State, id: string, version: string, remote: Remote) {
    && EntryKey(l.sha1, id, version) !in c.problems
    && remote.Fetched? && KeyOf(l.sha1, remote.problem) !in c.problems
    && Acyclic(Ids(remote.problem.subtasks), DependencyEdges(remote.problem.subtasks))
  }

  ghost function Prepare(l: Layout, c: State, id: string, version: string, remote: Remote, end: Pool): (State, Answer) {
    var asked := EntryKey(l.sha1, id, version);
    if asked in c.problems then (Locked(c, asked), Prepared(asked, c.problems[asked].problem))
    else if remote.Unreachable? then (c, Rejected)
    else
      var key := KeyOf(l.sha1, remote.problem);
      if key in c.problems then (Locked(c, key), Prepared(key, c.problems[key].problem))
      else if !NeedsFetch(l, c, id, version, remote) then (c, Rejected)
      else
        var fetched := c.(store := end.store);
        if end.main != Done(true) then (fetched, Rejected)
        else (Locked(fetched.(problems := c.problems[key := FromProblem(remote.problem)]), key),
              Prepared(key, remote.problem))
  }

  function Unlocked(problems: map<string, Entry>, key: string): map<string, Entry> {
    if key in problems then problems[key := problems[key].(locks := problems[key].locks - 1)] else problems
  }

  ghost function Unlock(c: State, key: string): State {
    c.(problems := Unlocked(c.problems, key), handles := c.handles - multiset{key})
  }

  ghost function EvictOne(l: Layout, c: State, key: string, io: EvictIO): State {
    if key !in c.problems || c.problems[key].locks > 0 then c
    else
      var (store, ok) := Evict(l, c.store, key, io);
      if ok then c.(store := store, problems := c.problems - {key}, broken := c.broken - {key})
      else c.(store := store, broken := if io.readOk then c.broken + {key} else c.broken)
  }

  ghost function EvictAll(l: Layout, c: State, order: seq<string>, ios: map<string, EvictIO>): State
    requires forall key :: key in order ==> key in ios
  {
    if order == [] then c
    else
      var n := |order| - 1;
      EvictOne(l, EvictAll(l, c, order[..n], ios), order[n], ios[order[n]])
  }

  // ----- invariants

  /** All resources of one cached problem can be read, by their ids. */
  ghost predicate Available(l: Layout, c: State, key: string)
    requires key in c.problems
  {
    forall res :: res in Resources(c.problems[key].problem) ==>
      Get(l, c.store, ResKey(l.sha1, c.problems[key].problem, res)) == Found(res, l.ProbPath(key, res))
  }

  ghost predicate EntryOk(l: Layout, c: State, key: string)
    requires key in c.problems
  {
    var e := c.problems[key];
    && key == KeyOf(l.sha1, e.problem) && e.id == e.problem.id && e.version == e.problem.ver
    && e.locks == c.handles[key]
    && (forall res :: res in Resources(e.problem) ==>
          (StoreKey(key, res) in c.store.probFiles <==> key !in c.broken))
  }

  /** An index entry belongs to a cached problem whose files are intact. */
  ghost predicate Owned(c: State, fileKey: string, key: string) {
    DirOf(fileKey, key) in c.problems && DirOf(fileKey, key) !in c.broken
  }

  ghost predicate CacheOk(l: Layout, c: State) {
    && Consistent(l, c.store)
    && (forall key :: key in c.problems ==> EntryOk(l, c, key))
    && (forall key :: key in c.handles ==> key in c.problems)
    && c.broken <= c.problems.Keys
    && (forall fileKey :: fileKey in c.store.probFiles ==> Owned(c, fileKey, c.store.probFiles[fileKey]))
  }

  lemma KeyIsPlain(l: Layout, c: State, key: string)
    requires CacheOk(l, c) && key in c.problems
    ensures PlainName(key)
  {
    assert EntryOk(l, c, key);
  }

  /** Exactly the entries that no failed removal has hit, and whose resources have plain names, have them at hand. */
  lemma AvailableIff(l: Layout, c: State, key: string)
    requires CacheOk(l, c) && key in c.problems
    ensures var p := c.problems[key].problem;
            Available(l, c, key) <==> Resources(p) == map[] || (key !in c.broken && PlainResources(p))
  {
    var p := c.problems[key].problem;
    assert EntryOk(l, c, key);
    forall res | res in Resources(p)
      ensures Get(l, c.store, ResKey(l.sha1, p, res))
           == if key !in c.broken && PlainName(res) then Found(res, l.ProbPath(key, res)) else NotFound
    {
      KeyIsPlain(l, c, key);
      GetFindsIndexed(l, c.store, key, res);
    }
    if Resources(p) != map[] {
      var res :| res in Resources(p);
    }
  }

  lemma LockedOk(l: Layout, c: State, key: string)
    requires CacheOk(l, c) && key in c.problems
    ensures CacheOk(l, Locked(c, key))
  {
    var c' := Locked(c, key);
    forall k | k in c'.problems
      ensures EntryOk(l, c', k)
    {
      assert EntryOk(l, c, k);
    }
    forall fileKey | fileKey in c'.store.probFiles
      ensures Owned(c', fileKey, c'.store.probFiles[fileKey])
    {
      assert Owned(c, fileKey, c.store.probFiles[fileKey]);
    }
  }

  lemma UnlockOk(l: Layout, c: State, key: string)
    requires CacheOk(l, c) && key in c.handles
    ensures CacheOk(l, Unlock(c, key))
  {
    var c' := Unlock(c, key);
    forall k | k in c'.problems
      ensures EntryOk(l, c', k)
    {
      assert EntryOk(l, c, k);
    }
    forall fileKey | fileKey in c'.store.probFiles
      ensures Owned(c', fileKey, c'.store.probFiles[fileKey])
    {
      assert Owned(c, fileKey, c.store.probFiles[fileKey]);
    }
  }

  lemma UnlockKeeps(l: Layout, c: State, key: string)
    ensures CacheOk(l, c) && key in c.handles ==> CacheOk(l, Unlock(c, key))
  {
    if CacheOk(l, c) && key in c.handles {
      UnlockOk(l, c, key);
    }
  }

  /** The entries after n unlocks that no handle stands for. */
  ghost function Superfluous(problems: map<string, Entry>, key: string, n: nat): map<string, Entry> {
    if n == 0 then problems else Unlocked(Superfluous(problems, key, n - 1), key)
  }

  lemma {:induction false} SuperfluousCount(problems: map<string, Entry>, key: string, n: nat)
    requires key in problems
    ensures key in Superfluous(problems, key, n)
    ensures Superfluous(problems, key, n)[key].locks == problems[key].locks - n
  {
    if n > 0 {
      SuperfluousCount(problems, key, n - 1);
    }
  }

  /** Superfluous unlocks expose an entry in use to eviction exactly if there are as many as outstanding handles. */
  lemma SuperfluousUnlocksExposeIff(l: Layout, c: State, key: string, n: nat)
    requires CacheOk(l, c) && key in c.handles
    ensures key in Superfluous(c.problems, key, n)
    ensures Superfluous(c.problems, key, n)[key].locks <= 0 <==> n >= c.handles[key]
  {
    assert EntryOk(l, c, key);
    SuperfluousCount(c.problems, key, n);
  }

  /** A failed fetch leaves only files that no index entry mentions. */
  lemma FailedFetchOk(l: Layout, c: State, p: Problem, end: Pool)
    requires CacheOk(l, c) && IsEnd(l, c.store, p, end) && end.main != Done(true)
    ensures CacheOk(l, c.(store := end.store))
  {
    FetchLeaves(l, c.store, p, end);
    KeepingFilesKeepsIndex(l, c.store, end.store);
    var c' := c.(store := end.store);
    forall k | k in c'.problems
      ensures EntryOk(l, c', k)
    {
      assert EntryOk(l, c, k);
    }
    forall fileKey | fileKey in c'.store.probFiles
      ensures Owned(c', fileKey, c'.store.probFiles[fileKey])
    {
      assert Owned(c, fileKey, c.store.probFiles[fileKey]);
    }
  }

  ghost predicate NamesResource(p: Problem, dir: string, fileKey: string) {
    exists res :: res in Resources(p) && fileKey == StoreKey(dir, res)
  }

  lemma EndIsIndexed(l: Layout, store: Store, p: Problem, end: Pool)
    requires Consistent(l, store) && IsEnd(l, store, p, end) && end.main == Done(true)
    ensures Consistent(l, end.store)
    ensures var key := KeyOf(l.sha1, p);
            && (forall res :: res in Resources(p) ==> StoreKey(key, res) in end.store.probFiles)
            && (forall fileKey :: fileKey in end.store.probFiles ==>
                  (fileKey in store.probFiles && end.store.probFiles[fileKey] == store.probFiles[fileKey])
                  || NamesResource(p, key, fileKey))
            && (forall fileKey :: fileKey in store.probFiles ==> fileKey in end.store.probFiles)
  {
    var grown := store.(files := end.store.files, dirs := end.store.dirs);
    EndIsSubmitted(l, store, p, end);
    KeepingFilesKeepsIndex(l, store, grown);
    SubmitNames(l, grown, p, end.flow.results);
  }

  /** However the pool ends, nothing on disk is lost, what is added is its own, and only success touches the index. */
  lemma FetchLeaves(l: Layout, store: Store, p: Problem, end: Pool)
    requires IsEnd(l, store, p, end)
    ensures KeepsFiles(store, end.store) && WritesOwn(JobFor(l, p), store, end.store)
    ensures end.main != Done(true) ==> SameIndex(store, end.store)
  {
    var job := JobFor(l, p);
    var actions :| IsRun(job, Init(job, store), actions) && After(job, Init(job, store), actions) == end;
    Outcome(job, store, actions);
  }

  /** What the pool promises about a successful end, for this problem. */
  lemma EndIsSubmitted(l: Layout, store: Store, p: Problem, end: Pool)
    requires IsEnd(l, store, p, end) && end.main == Done(true)
    ensures var grown := store.(files := end.store.files, dirs := end.store.dirs);
            var dir, results := KeyOf(l.sha1, p), end.flow.results;
            && KeepsFiles(store, grown) && end.store == Submit(l, grown, dir, results)
            && (forall res :: res in results <==> res in Resources(p))
            && (forall res :: res in results ==> OnDisk(JobFor(l, p), grown, res))
  {
    var job := JobFor(l, p);
    var actions :| IsRun(job, Init(job, store), actions) && After(job, Init(job, store), actions) == end;
    Outcome(job, store, actions);
    forall res
      ensures res in end.flow.results <==> res in Resources(p)
    {
      assert res in end.flow.results <==> res in multiset(end.flow.results);
      assert res in Resources(p) <==> res in multiset(job.sizes.Keys);
    }
    forall res | res in end.flow.results
      ensures OnDisk(job, store.(files := end.store.files, dirs := end.store.dirs), res)
    {
      assert OnDisk(job, end.store, res);
    }
  }

  lemma SubmitNames(l: Layout, grown: Store, p: Problem, results: seq<string>)
    requires Consistent(l, grown)
    requires forall res :: res in results <==> res in Resources(p)
    requires forall res :: res in results ==> OnDisk(JobFor(l, p), grown, res)
    ensures var st, key := Submit(l, grown, KeyOf(l.sha1, p), results), KeyOf(l.sha1, p);
            && Consistent(l, st)
            && (forall res :: res in Resources(p) ==> StoreKey(key, res) in st.probFiles)
            && (forall fileKey :: fileKey in st.probFiles ==>
                  (fileKey in grown.probFiles && st.probFiles[fileKey] == grown.probFiles[fileKey])
                  || NamesResource(p, key, fileKey))
            && (forall fileKey :: fileKey in grown.probFiles ==> fileKey in st.probFiles)
  {
    forall res | res in results
      ensures Saved(l, grown, KeyOf(l.sha1, p), res)
    {
      assert OnDisk(JobFor(l, p), grown, res) && res in Resources(p);
    }
    SubmitEffect(l, grown, KeyOf(l.sha1, p), results);
  }

  ghost function WithFetched(l: Layout, c: State, p: Problem, end: Pool): State {
    c.(store := end.store, problems := c.problems[KeyOf(l.sha1, p) := FromProblem(p)])
  }

  /** A successful fetch makes all resources of the new entry available and disturbs no other entry. */
  lemma FetchedOk(l: Layout, c: State, p: Problem, end: Pool)
    requires CacheOk(l, c) && KeyOf(l.sha1, p) !in c.problems
    requires IsEnd(l, c.store, p, end) && end.main == Done(true)
    ensures CacheOk(l, WithFetched(l, c, p, end))
  {
    var c' := WithFetched(l, c, p, end);
    FetchedConsistent(l, c, p, end);
    forall k | k in c'.problems
      ensures EntryOk(l, c', k)
    {
      if k == KeyOf(l.sha1, p) {
        NewEntryOk(l, c, p, end);
      } else {
        OldEntryOk(l, c, p, end, k);
      }
    }
    forall fileKey | fileKey in c'.store.probFiles
      ensures Owned(c', fileKey, c'.store.probFiles[fileKey])
    {
      EndIsIndexed(l, c.store, p, end);
      NewlyOwned(l, c, p, end.store, fileKey);
    }
  }

  lemma FetchedConsistent(l: Layout, c: State, p: Problem, end: Pool)
    requires CacheOk(l, c) && IsEnd(l, c.store, p, end) && end.main == Done(true)
    ensures Consistent(l, end.store)
  {
    EndIsIndexed(l, c.store, p, end);
  }

  lemma NewEntryOk(l: Layout, c: State, p: Problem, end: Pool)
    requires CacheOk(l, c) && KeyOf(l.sha1, p) !in c.problems
    requires IsEnd(l, c.store, p, end) && end.main == Done(true)
    ensures EntryOk(l, WithFetched(l, c, p, end), KeyOf(l.sha1, p))
  {
    EndIsIndexed(l, c.store, p, end);
    assert KeyOf(l.sha1, p) !in c.handles;
  }

  lemma OldEntryOk(l: Layout, c: State, p: Problem, end: Pool, k: string)
    requires CacheOk(l, c) && IsEnd(l, c.store, p, end) && end.main == Done(true)
    requires k in c.problems && k != KeyOf(l.sha1, p)
    ensures EntryOk(l, WithFetched(l, c, p, end), k)
  {
    assert EntryOk(l, c, k);
    EndIsIndexed(l, c.store, p, end);
    OtherEntryUndisturbed(p, KeyOf(l.sha1, p), c.problems[k].problem, k, c.store, end.store);
  }

  lemma NewlyOwned(l: Layout, c: State, p: Problem, store: Store, fileKey: string)
    requires CacheOk(l, c) && KeyOf(l.sha1, p) !in c.problems
    requires Consistent(l, store) && fileKey in store.probFiles
    requires (fileKey in c.store.probFiles && store.probFiles[fileKey] == c.store.probFiles[fileKey])
             || NamesResource(p, KeyOf(l.sha1, p), fileKey)
    ensures Owned(c.(store := store, problems := c.problems[KeyOf(l.sha1, p) := FromProblem(p)]), fileKey,
                  store.probFiles[fileKey])
  {
    var key := KeyOf(l.sha1, p);
    if NamesResource(p, key, fileKey) {
      var res :| res in Resources(p) && fileKey == StoreKey(key, res);
      IndexedUnderOwnKey(l, store, key, res);
    } else {
      assert Owned(c, fileKey, c.store.probFiles[fileKey]);
    }
  }

  lemma IndexedUnderOwnKey(l: Layout, st: Store, dir: string, key: string)
    requires Consistent(l, st) && PlainName(dir) && StoreKey(dir, key) in st.probFiles
    ensures st.probFiles[StoreKey(dir, key)] == key && DirOf(StoreKey(dir, key), key) == dir
  {
    var fileKey := StoreKey(dir, key);
    var key' := st.probFiles[fileKey];
    assert Backed(l, st, fileKey, key');
    SlashUnique(dir, key, DirOf(fileKey, key'), key');
  }

  lemma OtherEntryUndisturbed(p: Problem, dir: string, q: Problem, k: string, before: Store, after: Store)
    requires PlainName(dir) && PlainName(k) && k != dir
    requires forall fileKey :: fileKey in after.probFiles ==>
               fileKey in before.probFiles || NamesResource(p, dir, fileKey)
    requires forall fileKey :: fileKey in before.probFiles ==> fileKey in after.probFiles
    ensures forall res :: res in Resources(q) ==>
              (StoreKey(k, res) in after.probFiles <==> StoreKey(k, res) in before.probFiles)
  {
    forall res | res in Resources(q)
      ensures StoreKey(k, res) in after.probFiles <==> StoreKey(k, res) in before.probFiles
    {
      OtherDirectory(p, dir, k, res);
    }
  }

  lemma OtherDirectory(p: Problem, dir: string, k: string, res: string)
    requires PlainName(dir) && PlainName(k) && k != dir
    ensures !NamesResource(p, dir, StoreKey(k, res))
  {
    if NamesResource(p, dir, StoreKey(k, res)) {
      var res' :| res' in Resources(p) && StoreKey(k, res) == StoreKey(dir, res');
      SlashUnique(k, res, dir, res');
    }
  }

  lemma EvictOneOk(l: Layout, c: State, key: string, io: EvictIO)
    requires CacheOk(l, c) && RealisticListing(l, c.store, key, io)
    ensures CacheOk(l, EvictOne(l, c, key, io))
  {
    if key in c.problems && c.problems[key].locks <= 0 {
      var c' := EvictOne(l, c, key, io);
      KeyIsPlain(l, c, key);
      EvictEffect(l, c.store, key, io);
      assert EntryOk(l, c, key);
      forall k | k in c'.problems
        ensures EntryOk(l, c', k)
      {
        assert EntryOk(l, c, k);
        EvictedEntryIndex(l, c, key, io, k);
      }
      forall fileKey | fileKey in c'.store.probFiles
        ensures Owned(c', fileKey, c'.store.probFiles[fileKey])
      {
        assert Owned(c, fileKey, c.store.probFiles[fileKey]);
      }
    }
  }

  lemma EvictedEntryIndex(l: Layout, c: State, key: string, io: EvictIO, k: string)
    requires CacheOk(l, c) && RealisticListing(l, c.store, key, io) && key in c.problems && k in c.problems
    ensures forall res :: res in Resources(c.problems[k].problem) ==>
              (StoreKey(k, res) in Evict(l, c.store, key, io).0.probFiles
               <==> StoreKey(k, res) in c.store.probFiles && !(io.readOk && k == key))
  {
    KeyIsPlain(l, c, key);
    KeyIsPlain(l, c, k);
    assert EntryOk(l, c, k);
    EvictEffect(l, c.store, key, io);
    forall res | res in Resources(c.problems[k].problem) && StoreKey(k, res) in c.store.probFiles
      ensures DirOf(StoreKey(k, res), c.store.probFiles[StoreKey(k, res)]) == k
    {
      IndexedUnderOwnKey(l, c.store, k, res);
    }
  }

  /** Evicting one problem does not change what another one's directory lists. */
  lemma ListingUndisturbed(l: Layout, c: State, key: string, io: EvictIO, k: string, io': EvictIO)
    requires CacheOk(l, c) && RealisticListing(l, c.store, key, io) && RealisticListing(l, c.store, k, io')
    requires k != key
    ensures RealisticListing(l, EvictOne(l, c, key, io).store, k, io')
  {
    if key in c.problems && c.problems[key].locks <= 0 && io'.readOk {
      KeyIsPlain(l, c, key);
      EvictEffect(l, c.store, key, io);
      var store := EvictOne(l, c, key, io).store;
      forall name
        ensures l.ProbDir(k) + [name] in store.files <==> l.ProbDir(k) + [name] in c.store.files
      {
        var path := l.ProbDir(k) + [name];
        assert path[..|l.root| + 2] == l.ProbDir(k);
        assert l.ProbDir(k)[|l.root| + 1] == k && l.ProbDir(key)[|l.root| + 1] == key;
        assert !IsProbFile(l, key, path);
      }
    }
  }

  ghost predicate LegalEviction(l: Layout, c: State, order: seq<string>, ios: map<string, EvictIO>) {
    && Distinct(order)
    && forall key :: key in order ==> key in ios && RealisticListing(l, c.store, key, ios[key])
  }

  lemma {:induction false} EvictAllOk(l: Layout, c: State, order: seq<string>, ios: map<string, EvictIO>)
    requires CacheOk(l, c) && LegalEviction(l, c, order, ios)
    ensures CacheOk(l, EvictAll(l, c, order, ios))
    ensures forall k :: k in ios && k !in order && RealisticListing(l, c.store, k, ios[k]) ==>
              RealisticListing(l, EvictAll(l, c, order, ios).store, k, ios[k])
  {
    if order != [] {
      var n := |order| - 1;
      var before, key := EvictAll(l, c, order[..n], ios), order[n];
      EvictAllOk(l, c, order[..n], ios);
      assert key !in order[..n];
      EvictOneOk(l, before, key, ios[key]);
      forall k | k in ios && k !in order && RealisticListing(l, c.store, k, ios[k])
        ensures RealisticListing(l, EvictAll(l, c, order, ios).store, k, ios[k])
      {
        ListingUndisturbed(l, before, key, ios[key], k, ios[k]);
      }
    }
  }

  /** Eviction takes exactly the unlocked entries whose directory could be read and removed. */
  lemma {:induction false} EvictAllTakes(l: Layout, c: State, order: seq<string>, ios: map<string, EvictIO>)
    requires LegalEviction(l, c, order, ios)
    ensures var c' := EvictAll(l, c, order, ios);
            && c'.handles == c.handles
            && (forall k :: k in c'.problems ==> k in c.problems && c'.problems[k] == c.problems[k])
            && (forall k :: k in c.problems && (k !in order || c.problems[k].locks > 0) ==> k in c'.problems)
            && (forall k :: k in c.problems && k in order && c.problems[k].locks <= 0 ==>
                  (k in c'.problems <==> !(ios[k].readOk && ios[k].removeOk)))
  {
    if order != [] {
      var n := |order| - 1;
      EvictAllTakes(l, c, order[..n], ios);
      assert order[n] !in order[..n];
      assert forall k :: k in order <==> k in order[..n] || k == order[n];
    }
  }

  /** An entry loses its files exactly when its directory was read and then could not be removed. */
  lemma {:induction false} EvictAllBreaks(l: Layout, c: State, order: seq<string>, ios: map<string, EvictIO>, k: string)
    requires LegalEviction(l, c, order, ios)
    ensures k in EvictAll(l, c, order, ios).broken
            <==> if k in order && k in c.problems && c.problems[k].locks <= 0 && ios[k].readOk then !ios[k].removeOk
                 else k in c.broken
  {
    if order != [] {
      var n := |order| - 1;
      EvictAllBreaks(l, c, order[..n], ios, k);
      EvictAllTakes(l, c, order[..n], ios);
      assert order[n] !in order[..n];
      assert k in order <==> k in order[..n] || k == order[n];
    }
  }

  /** Fetching a problem without resources does not touch the store. */
  lemma NothingFetched(l: Layout, store: Store, p: Problem, end: Pool)
    requires IsEnd(l, store, p, end) && Resources(p) == map[]
    ensures end.store == store
  {
    var job := JobFor(l, p);
    var actions :| IsRun(job, Init(job, store), actions) && After(job, Init(job, store), actions) == end;
    InitOk(job, store);
    EmptyPoolIsIdle(job, store, Init(job, store), actions);
  }

  // ----- whole runs

  datatype Op =
    | PrepareThenLock(id: string, version: string, remote: Remote, end: Pool)
    | Release(key: string)
    | Evicting(order: seq<string>, ios: map<string, EvictIO>)
    | Temporary(op: TmpOp)

  /** A call that the callers of the cache may make: each unlock function at most once, an eviction of all entries. */
  ghost predicate Legal(l: Layout, c: State, op: Op) {
    match op
    case PrepareThenLock(id, version, remote, end) =>
      NeedsFetch(l, c, id, version, remote) ==> IsEnd(l, c.store, remote.problem, end)
    case Release(key) => key in c.handles && key in c.problems
    case Evicting(order, ios) => LegalEviction(l, c, order, ios)
    case Temporary(_) => true
  }

  ghost function Step(l: Layout, c: State, op: Op): State
    requires Legal(l, c, op)
  {
    match op
    case PrepareThenLock(id, version, remote, end) => Prepare(l, c, id, version, remote, end).0
    case Release(key) => Unlock(c, key)
    case Evicting(order, ios) => EvictAll(l, c, order, ios)
    case Temporary(tmp) => c.(store := ApplyTmp(l, c.store, tmp))
  }

  /** No removal of a directory fails in this call. */
  ghost predicate RemovalsSucceed(op: Op) {
    op.Evicting? ==> forall k :: k in op.ios ==> op.ios[k].readOk ==> op.ios[k].removeOk
  }

  ghost predicate LegalRun(l: Layout, c: State, ops: seq<Op>)
    decreases |ops|
  {
    ops == [] || (Legal(l, c, ops[0]) && LegalRun(l, Step(l, c, ops[0]), ops[1..]))
  }

  ghost function AfterRun(l: Layout, c: State, ops: seq<Op>): State
    requires LegalRun(l, c, ops)
    decreases |ops|
  {
    if ops == [] then c else AfterRun(l, Step(l, c, ops[0]), ops[1..])
  }

  lemma PrepareOk(l: Layout, c: State, id: string, version: string, remote: Remote, end: Pool)
    requires CacheOk(l, c) && Legal(l, c, PrepareThenLock(id, version, remote, end))
    ensures CacheOk(l, Prepare(l, c, id, version, remote, end).0)
  {
    var asked := EntryKey(l.sha1, id, version);
    if asked in c.problems {
      LockedOk(l, c, asked);
    } else if remote.Fetched? {
      var p := remote.problem;
      var key := KeyOf(l.sha1, p);
      if key in c.problems {
        LockedOk(l, c, key);
      } else if NeedsFetch(l, c, id, version, remote) {
        if end.main == Done(true) {
          FetchedOk(l, c, p, end);
          LockedOk(l, WithFetched(l, c, p, end), key);
        } else {
          FailedFetchOk(l, c, p, end);
        }
      }
    }
  }

  /** Operations on temporary files do not disturb the cache. */
  lemma TemporaryOk(l: Layout, c: State, tmp: TmpOp)
    requires CacheOk(l, c)
    ensures CacheOk(l, c.(store := ApplyTmp(l, c.store, tmp)))
  {
    var c' := c.(store := ApplyTmp(l, c.store, tmp));
    TmpStepKeepsProblems(l, c.store, tmp);
    forall k | k in c'.problems
      ensures EntryOk(l, c', k)
    {
      assert EntryOk(l, c, k);
    }
    forall fileKey | fileKey in c'.store.probFiles
      ensures Owned(c', fileKey, c'.store.probFiles[fileKey])
    {
      assert Owned(c, fileKey, c.store.probFiles[fileKey]);
    }
  }

  lemma StepKeepsCache(l: Layout, c: State, op: Op)
    requires CacheOk(l, c) && Legal(l, c, op)
    ensures CacheOk(l, Step(l, c, op))
    ensures RemovalsSucceed(op) ==> Step(l, c, op).broken <= c.broken
  {
    match op
    case PrepareThenLock(id, version, remote, end) => PrepareOk(l, c, id, version, remote, end);
    case Release(key) => UnlockOk(l, c, key);
    case Temporary(tmp) => TemporaryOk(l, c, tmp);
    case Evicting(order, ios) =>
      EvictAllOk(l, c, order, ios);
      if RemovalsSucceed(op) {
        forall k | k in EvictAll(l, c, order, ios).broken
          ensures k in c.broken
        {
          EvictAllBreaks(l, c, order, ios, k);
        }
      }
  }

  function Empty(files: map<Path, Lines.Text>, dirs: set<string>): State {
    State(map[], Store(map[], map[], map[], files, dirs), multiset{}, {})
  }

  lemma {:induction false} RunKeepsCache(l: Layout, c: State, ops: seq<Op>)
    requires CacheOk(l, c) && LegalRun(l, c, ops)
    ensures CacheOk(l, AfterRun(l, c, ops))
    ensures (forall op :: op in ops ==> RemovalsSucceed(op)) ==> AfterRun(l, c, ops).broken <= c.broken
    decreases |ops|
  {
    if ops != [] {
      StepKeepsCache(l, c, ops[0]);
      RunKeepsCache(l, Step(l, c, ops[0]), ops[1..]);
      assert (forall op :: op in ops ==> RemovalsSucceed(op)) ==>
          RemovalsSucceed(ops[0]) && forall op :: op in ops[1..] ==> RemovalsSucceed(op);
    }
  }

  /**
   * Lock safety over whole runs, whatever fails: the lock count of an entry is the number of its outstanding unlock
   * functions, and while there is one the entry stays cached. As long as no directory removal fails, all its resources
   * can be read as well, if they have plain names.
   */
  lemma LockSafety(l: Layout, files: map<Path, Lines.Text>, dirs: set<string>, ops: seq<Op>, key: string)
    requires GoodDigest(l.sha1) && LegalRun(l, Empty(files, dirs), ops)
    ensures var c := AfterRun(l, Empty(files, dirs), ops);
            && IndexInDisk(l, c.store)
            && (key in c.problems ==> c.problems[key].locks == c.handles[key])
            && (key in c.handles ==> key in c.problems && c.problems[key].locks > 0)
            && ((forall op :: op in ops ==> RemovalsSucceed(op)) && key in c.problems ==>
                  (Available(l, c, key) <==> PlainResources(c.problems[key].problem)))
  {
    var c := AfterRun(l, Empty(files, dirs), ops);
    RunKeepsCache(l, Empty(files, dirs), ops);
    if key in c.problems {
      assert EntryOk(l, c, key);
      if forall op :: op in ops ==> RemovalsSucceed(op) {
        IntactAvailableIff(l, c, key);
      }
    }
  }

  lemma IntactAvailableIff(l: Layout, c: State, key: string)
    requires CacheOk(l, c) && key in c.problems && key !in c.broken
    ensures Available(l, c, key) <==> PlainResources(c.problems[key].problem)
  {
    AvailableIff(l, c, key);
  }

  /** The backend sends the problem that was asked for; an empty version asks for the latest. */
  predicate Honest(id: string, version: string, remote: Remote) {
    remote.Fetched? ==> remote.problem.id == id && (version == "" || remote.problem.ver == version)
  }

  ghost predicate FlatIds(c: State) {
    forall key :: key in c.problems ==> SlashFree(c.problems[key].problem.id)
  }

  /** Preparing changes neither what is cached otherwise nor which entries have lost their files. */
  lemma PreparedEntry(l: Layout, c: State, id: string, version: string, remote: Remote, end: Pool)
    requires CacheOk(l, c) && Legal(l, c, PrepareThenLock(id, version, remote, end))
    ensures var (c', answer) := Prepare(l, c, id, version, remote, end);
            c'.broken == c.broken
            && (answer.Prepared? ==> answer.key in c'.problems && c'.problems[answer.key].problem == answer.problem)
  {
  }

  /** The problem has the text of the request, id and version together; an empty version stands for any. */
  ghost predicate Asked(id: string, version: string, p: Problem) {
    exists v :: (version == "" || v == version) && p.id + "/" + p.ver == id + "/" + v
  }

  /** Such a problem has another id only if one of the two extends the other by a slash. */
  lemma AskedId(id: string, version: string, p: Problem)
    requires Asked(id, version, p)
    ensures p.id == id ==> version == "" || p.ver == version
    ensures p.id != id ==> Extends(p.id, id) || Extends(id, p.id)
  {
    var v :| (version == "" || v == version) && p.id + "/" + p.ver == id + "/" + v;
    if p.id == id {
      DropAppend(id + "/", v);
      DropAppend(id + "/", p.ver);
    } else if |p.id| == |id| {
      SameLengthSameId(p.id, p.ver, id, v);
    } else if |id| < |p.id| {
      CollidingExtends(id, v, p.id, p.ver);
    } else {
      CollidingExtends(p.id, p.ver, id, v);
    }
  }

  /**
   * What PrepareThenLock hands out is the problem asked for, now cached under its key and locked once more. It can be
   * another one only where ids have slashes. Its resources can be read exactly if no failed removal has hit them and
   * they have plain names.
   */
  lemma PreparedIsAsked(l: Layout, c: State, id: string, version: string, remote: Remote, end: Pool)
    requires CacheOk(l, c) && Legal(l, c, PrepareThenLock(id, version, remote, end)) && Honest(id, version, remote)
    ensures var (c', answer) := Prepare(l, c, id, version, remote, end);
            answer.Prepared? ==>
              && Asked(id, version, answer.problem)
              && answer.key == KeyOf(l.sha1, answer.problem) && answer.key in c'.problems
              && c'.problems[answer.key].problem == answer.problem
              && c'.handles[answer.key] == c.handles[answer.key] + 1
              && (Available(l, c', answer.key)
                  <==> Resources(answer.problem) == map[]
                       || (answer.key !in c.broken && PlainResources(answer.problem)))
  {
    var (c', answer) := Prepare(l, c, id, version, remote, end);
    PreparedHandsOut(l, c, id, version, remote, end);
    PreparedEntry(l, c, id, version, remote, end);
    PrepareOk(l, c, id, version, remote, end);
    if answer.Prepared? {
      AvailableIff(l, c', answer.key);
    }
  }

  lemma PreparedHandsOut(l: Layout, c: State, id: string, version: string, remote: Remote, end: Pool)
    requires CacheOk(l, c) && Legal(l, c, PrepareThenLock(id, version, remote, end)) && Honest(id, version, remote)
    ensures var (c', answer) := Prepare(l, c, id, version, remote, end);
            answer.Prepared? ==>
              && Asked(id, version, answer.problem) && answer.key == KeyOf(l.sha1, answer.problem)
              && c'.handles[answer.key] == c.handles[answer.key] + 1
  {
    var asked := EntryKey(l.sha1, id, version);
    if asked in c.problems {
      assert EntryOk(l, c, asked);
      var p := c.problems[asked].problem;
      SameKeySameText(l.sha1, p.id, p.ver, id, version);
    } else if remote.Fetched? {
      var q := remote.problem;
      if KeyOf(l.sha1, q) in c.problems {
        assert EntryOk(l, c, KeyOf(l.sha1, q));
        var p := c.problems[KeyOf(l.sha1, q)].problem;
        SameKeySameText(l.sha1, p.id, p.ver, q.id, q.ver);
      }
    }
  }

  lemma FlatAsked(id: string, version: string, p: Problem)
    requires Asked(id, version, p) && SlashFree(id) && SlashFree(p.id)
    ensures p.id == id && (version == "" || p.ver == version)
  {
    AskedId(id, version, p);
    if Extends(id, p.id) {
      ExtendsHasSlash(id, p.id);
    }
    if Extends(p.id, id) {
      ExtendsHasSlash(p.id, id);
    }
  }

  lemma PreparedKeepsFlat(l: Layout, c: State, id: string, version: string, remote: Remote, end: Pool)
    requires Legal(l, c, PrepareThenLock(id, version, remote, end)) && Honest(id, version, remote)
    requires SlashFree(id) && FlatIds(c)
    ensures var (c', answer) := Prepare(l, c, id, version, remote, end);
            FlatIds(c') && (answer.Prepared? ==> SlashFree(answer.problem.id))
  {
  }

  /** With slash-free ids it is the problem asked for, and ids stay slash-free. */
  lemma FlatPreparedIsAsked(l: Layout, c: State, id: string, version: string, remote: Remote, end: Pool)
    requires CacheOk(l, c) && Legal(l, c, PrepareThenLock(id, version, remote, end)) && Honest(id, version, remote)
    requires SlashFree(id) && FlatIds(c)
    ensures var (c', answer) := Prepare(l, c, id, version, remote, end);
            answer.Prepared? ==>
              answer.problem.id == id && (version == "" || answer.problem.ver == version) && FlatIds(c')
  {
    var answer := Prepare(l, c, id, version, remote, end).1;
    PreparedHandsOut(l, c, id, version, remote, end);
    PreparedKeepsFlat(l, c, id, version, remote, end);
    if answer.Prepared? {
      FlatAsked(id, version, answer.problem);
    }
  }

  // ----- when a request is granted

  ghost predicate Admitted(p: Problem) {
    Acyclic(Ids(p.subtasks), DependencyEdges(p.subtasks))
  }

  /** The pool has returned with every resource received, none given up and none left in the channel. */
  ghost predicate FetchedAll(end: Pool) {
    end.flow.keyChan == [] && end.flow.abandoned == []
  }

  lemma EndedWellIff(l: Layout, store: Store, p: Problem, end: Pool)
    requires IsEnd(l, store, p, end)
    ensures end.main == Done(true) <==> FetchedAll(end)
  {
    var job := JobFor(l, p);
    var actions :| IsRun(job, Init(job, store), actions) && After(job, Init(job, store), actions) == end;
    Outcome(job, store, actions);
  }

  /**
   * A request is granted exactly if the key asked for is cached, or the backend sends a problem that is cached, or one
   * that is admitted and whose resources are all fetched.
   */
  lemma GrantedIff(l: Layout, c: State, id: string, version: string, remote: Remote, end: Pool)
    requires Legal(l, c, PrepareThenLock(id, version, remote, end))
    ensures Prepare(l, c, id, version, remote, end).1.Prepared?
            <==> || EntryKey(l.sha1, id, version) in c.problems
                 || (remote.Fetched?
                     && (KeyOf(l.sha1, remote.problem) in c.problems || (Admitted(remote.problem) && FetchedAll(end))))
  {
    if NeedsFetch(l, c, id, version, remote) {
      EndedWellIff(l, c.store, remote.problem, end);
    }
  }

  /** A rejection leaves entries and locks alone; a grant adds one lock to one entry, and no other entry changes. */
  lemma GrantedOrUntouched(l: Layout, c: State, id: string, version: string, remote: Remote, end: Pool)
    ensures var (c', answer) := Prepare(l, c, id, version, remote, end);
            match answer
            case Rejected => c'.problems == c.problems && c'.handles == c.handles
            case Prepared(key, p) =>
              && c'.handles == c.handles + multiset{key} && c'.problems.Keys == c.problems.Keys + {key}
              && c'.problems[key].locks == 1 + (if key in c.problems then c.problems[key].locks else 0)
              && forall k :: k in c.problems && k != key ==> c'.problems[k] == c.problems[k]
  {
  }

  // ----- the ids by which the judge asks

  /** The id under which the judge looks a resource up (judge/judge.go, fsKey). */
  function FsKey(sha1: Digest, p: Problem, key: string): string {
    if p.id != "" && p.ver != "" then ResKey(sha1, p, key) else key
  }

  ghost predicate FoundByJudge(l: Layout, c: State, key: string)
    requires key in c.problems
  {
    forall res :: res in Resources(c.problems[key].problem) ==>
      Get(l, c.store, FsKey(l.sha1, c.problems[key].problem, res)) == Found(res, l.ProbPath(key, res))
  }

  lemma RawKeyIsElsewhere(l: Layout, st: Store, dir: string, res: string)
    requires PlainName(res) && GoodDigest(l.sha1)
    ensures Get(l, st, res) != Found(res, l.ProbPath(dir, res))
  {
    WalkSlashFree(l.TmpLoc(), res);
    assert "problem/"[7] == '/';
    assert |l.TmpPath(res)| == |l.root| + 2 && |l.ProbPath(dir, res)| == |l.root| + 3;
  }

  /** The judge finds plainly named resources exactly if they are intact and neither id nor version is empty. */
  lemma FoundByJudgeIff(l: Layout, c: State, key: string)
    requires CacheOk(l, c) && key in c.problems && PlainResources(c.problems[key].problem)
    ensures var p := c.problems[key].problem;
            FoundByJudge(l, c, key) <==> Resources(p) == map[] || (key !in c.broken && p.id != "" && p.ver != "")
  {
    var p := c.problems[key].problem;
    AvailableIff(l, c, key);
    if p.id == "" || p.ver == "" {
      forall res | res in Resources(p)
        ensures Get(l, c.store, FsKey(l.sha1, p, res)) != Found(res, l.ProbPath(key, res))
      {
        RawKeyIsElsewhere(l, c.store, key, res);
      }
      if Resources(p) != map[] {
        var res :| res in Resources(p);
      }
    } else {
      assert FoundByJudge(l, c, key) <==> Available(l, c, key);
    }
  }
}
