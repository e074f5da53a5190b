/** The sizes that a problem declares for its resources (resource/manager.go, fetchRes). */
module ResourceSizes {
  import opened Cache
  import opened FetchPool
  import opened Problems
  import opened Seqs
  import opened Storage

  /** The size that this case declares for a key it uses: of the output if that is its output to compare with. */
  function CaseSize(p: Problem, c: TestCase, key: string): int {
    AsInt64(if p.kind != SPECIAL && key == c.outputKey then c.outputSize else c.inputSize)
  }

  predicate IsJudge(p: Problem, key: string) {
    p.kind == SPECIAL && key == p.spjBinaryKey
  }

  /** The j-th case of the i-th subtask is the last to use this key. */
  ghost predicate LastUse(p: Problem, subtasks: seq<Subtask>, key: string, i: int, j: int) {
    && 0 <= i < |subtasks| && LastUseIn(p, subtasks[i].testCases, key, j)
    && forall i' :: i < i' < |subtasks| ==> !Uses(p, subtasks[i'].testCases, key)
  }

  ghost predicate LastUseIn(p: Problem, cases: seq<TestCase>, key: string, j: int) {
    && 0 <= j < |cases| && CaseUses(p, cases[j], key)
    && forall j' :: j < j' < |cases| ==> !CaseUses(p, cases[j'], key)
  }

  ghost predicate Uses(p: Problem, cases: seq<TestCase>, key: string) {
    exists j :: 0 <= j < |cases| && CaseUses(p, cases[j], key)
  }

  lemma {:induction false} SizesKept(p: Problem, cases: seq<TestCase>, sizes: map<string, int>, key: string)
    requires !Uses(p, cases, key)
    ensures key in CaseResources(p, cases, sizes) <==> key in sizes
    ensures key in sizes ==> CaseResources(p, cases, sizes)[key] == sizes[key]
  {
    if cases != [] {
      var n := |cases| - 1;
      assert !CaseUses(p, cases[n], key);
      assert forall j :: 0 <= j < n ==> cases[..n][j] == cases[j];
      SizesKept(p, cases[..n], sizes, key);
    }
  }

  lemma {:induction false} SizeInCases(p: Problem, cases: seq<TestCase>, sizes: map<string, int>, key: string, j: nat)
    requires LastUseIn(p, cases, key, j)
    ensures key in CaseResources(p, cases, sizes) && CaseResources(p, cases, sizes)[key] == CaseSize(p, cases[j], key)
  {
    var n := |cases| - 1;
    if j < n {
      assert !CaseUses(p, cases[n], key);
      SizeInCases(p, cases[..n], sizes, key, j);
    }
  }

  lemma {:induction false} SizeInSubtasks(p: Problem, subtasks: seq<Subtask>, key: string, i: nat, j: nat)
    requires LastUse(p, subtasks, key, i, j)
    ensures key in SubtaskResources(p, subtasks)
    ensures SubtaskResources(p, subtasks)[key] == CaseSize(p, subtasks[i].testCases[j], key)
  {
    var n := |subtasks| - 1;
    if i < n {
      SizeInSubtasks(p, subtasks[..n], key, i, j);
      SizesKept(p, subtasks[n].testCases, SubtaskResources(p, subtasks[..n]), key);
    } else {
      SizeInCases(p, subtasks[n].testCases, SubtaskResources(p, subtasks[..n]), key, j);
    }
  }

  lemma {:induction false} LastUseInExists(p: Problem, cases: seq<TestCase>, key: string) returns (j: nat)
    requires Uses(p, cases, key)
    ensures LastUseIn(p, cases, key, j)
  {
    var n := |cases| - 1;
    if CaseUses(p, cases[n], key) {
      j := n;
    } else {
      var k :| 0 <= k < |cases| && CaseUses(p, cases[k], key);
      assert cases[..n][k] == cases[k];
      j := LastUseInExists(p, cases[..n], key);
    }
  }

  lemma {:induction false} LastUseExists(p: Problem, subtasks: seq<Subtask>, key: string, k: nat)
    returns (i: nat, j: nat)
    requires k < |subtasks| && Uses(p, subtasks[k].testCases, key)
    ensures LastUse(p, subtasks, key, i, j)
  {
    var n := |subtasks| - 1;
    if Uses(p, subtasks[n].testCases, key) {
      i := n;
      j := LastUseInExists(p, subtasks[n].testCases, key);
    } else {
      i, j := LastUseExists(p, subtasks[..n], key, k);
    }
  }

  /**
   * The size of a resource: unknown for the special judge, otherwise what the last case declares that uses it, in the
   * order of subtasks and cases.
   */
  lemma ResourceSize(p: Problem, key: string)
    requires key in Resources(p)
    ensures IsJudge(p, key) ==> Resources(p)[key] == -1
    ensures !IsJudge(p, key) ==> exists i, j :: LastUse(p, p.subtasks, key, i, j)
    ensures !IsJudge(p, key) ==> forall i, j :: LastUse(p, p.subtasks, key, i, j) ==>
                                   Resources(p)[key] == CaseSize(p, p.subtasks[i].testCases[j], key)
  {
    if !IsJudge(p, key) {
      ResourcesIff(p, key);
      var s, c :| s in p.subtasks && c in s.testCases && CaseUses(p, c, key);
      var k: nat :| k < |p.subtasks| && p.subtasks[k] == s;
      assert Uses(p, s.testCases, key);
      var i, j := LastUseExists(p, p.subtasks, key, k);
      forall i, j | LastUse(p, p.subtasks, key, i, j)
        ensures Resources(p)[key] == CaseSize(p, p.subtasks[i].testCases[j], key)
      {
        SizeInSubtasks(p, p.subtasks, key, i, j);
      }
    }
  }

  /** The number of bytes that this case gives for a key it uses. */
  function Bytes(p: Problem, c: TestCase, key: string): nat {
    if p.kind != SPECIAL && key == c.outputKey then c.outputSize else c.inputSize
  }

  /**
   * After a successful fetch, a new file holds as many bytes as the last case that uses it says, exactly unless an
   * attempt left it behind with another size.
   */
  lemma FetchedAsDeclared(l: Layout, p: Problem, store0: Store, actions: seq<Action>, key: string, i: nat, j: nat)
    requires GoodDigest(l.sha1) && IsRun(JobFor(l, p), Init(JobFor(l, p), store0), actions)
    requires After(JobFor(l, p), Init(JobFor(l, p), store0), actions).main == Done(true)
    requires key in Resources(p) && LastUse(p, p.subtasks, key, i, j) && !IsJudge(p, key)
    requires Bytes(p, p.subtasks[i].testCases[j], key) < 0x8000_0000_0000_0000
    requires l.ProbPath(KeyOf(l.sha1, p), key) !in store0.files
    ensures var path, files := l.ProbPath(KeyOf(l.sha1, p), key),
                               After(JobFor(l, p), Init(JobFor(l, p), store0), actions).store.files;
            path in files
            && (|files[path]| == Bytes(p, p.subtasks[i].testCases[j], key)
                <==> !LeavesShortIn(JobFor(l, p), Init(JobFor(l, p), store0), actions, key))
  {
    ResourceSize(p, key);
    FetchedSizes(JobFor(l, p), store0, actions, key);
  }

  /** An input of 3 bytes and an output of 5 bytes, each used once. */
  lemma SizesOfOneCase(p: Problem, s: Subtask)
    requires p.kind == CLASSIC && p.subtasks == [s] && s.testCases == [TestCase("in", 3, "out", 5)]
    ensures Resources(p) == map["in" := 3, "out" := 5]
  {
    var last := s.testCases[0];
    assert s.testCases[..0] == [] && p.subtasks[..0] == [];
    assert CaseResources(p, [], map[]) == map[];
    assert SubtaskResources(p, p.subtasks) == map["in" := 3]["out" := 5];
  }

  /** With a special judge the output is not fetched, and the judge's size is not known. */
  lemma SizesWithSpecialJudge(p: Problem, s: Subtask)
    requires p.kind == SPECIAL && p.spjBinaryKey == "spj" && p.subtasks == [s]
    requires s.testCases == [TestCase("in", 3, "out", 5)]
    ensures Resources(p) == map["in" := 3, "spj" := -1]
  {
    assert s.testCases[..0] == [] && p.subtasks[..0] == [];
    assert CaseResources(p, [], map[]) == map[];
    assert SubtaskResources(p, p.subtasks) == map["in" := 3];
  }
}
