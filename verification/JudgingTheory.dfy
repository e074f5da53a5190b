/** Which subtasks a run judges, in which order, which errors it reports, and which outputs it hands on. */
module JudgingTheory {
  import opened Digraph
  import opened Judging
  import opened Kahn
  import opened KahnTheory
  import opened Problems
  import opened Scoring
  import opened Seqs
  import opened SubtaskGraph

  // ----- which subtasks are judged

  /**
   * A subtask is judged exactly if no cycle leads to it and no internal error occurs in a subtask that depends on it,
   * directly or not. A missing dependency is called under the same condition.
   */
  lemma JudgedIff(subtasks: seq<Subtask>, verdicts: Verdicts, order: seq<uint32>, id: uint32)
    requires Regular(subtasks) && JudgingOrder(subtasks, verdicts, order)
    ensures id in order
            <==> IsNode(subtasks, id) && SoundPast(DependencyEdges(subtasks), Answer(subtasks, verdicts), id)
  {
    var ids, indeg, answers := ExtendedRun(subtasks, verdicts, order);
    CalledIff(ids, indeg, DependencyEdges(subtasks), order, answers, Answer(subtasks, verdicts), id);
  }

  /** A subtask is judged after every subtask that depends on it, and only if those had no internal error. */
  lemma DependentsGoFirst(subtasks: seq<Subtask>, verdicts: Verdicts, order: seq<uint32>, k: nat, s: Subtask)
    requires Regular(subtasks) && JudgingOrder(subtasks, verdicts, order)
    requires k < |order| && s in subtasks && order[k] in s.dependencies
    ensures s.id in order[..k] && AllJudged(s, verdicts)
  {
    var ids, indeg, answers := ExtendedRun(subtasks, verdicts, order);
    FindSubtask(subtasks, s);
    CallSources(ids, indeg, DependencyEdges(subtasks), order, answers, Answer(subtasks, verdicts), k, s.id);
  }

  // ----- missing dependencies

  /**
   * The program crashes exactly if some missing dependency has no cycle leading to it and no internal error in a
   * subtask that depends on it, directly or not.
   */
  lemma CrashesIff(subtasks: seq<Subtask>, verdicts: Verdicts, order: seq<uint32>)
    requires Regular(subtasks) && JudgingOrder(subtasks, verdicts, order)
    ensures Crashes(subtasks, order)
            <==> exists id :: IsDependency(subtasks, id) && id !in Ids(subtasks)
                              && SoundPast(DependencyEdges(subtasks), Answer(subtasks, verdicts), id)
  {
    if Crashes(subtasks, order) {
      var id :| id in order && id !in Ids(subtasks);
      JudgedIff(subtasks, verdicts, order, id);
    }
    if id :| IsDependency(subtasks, id) && id !in Ids(subtasks)
             && SoundPast(DependencyEdges(subtasks), Answer(subtasks, verdicts), id) {
      JudgedIff(subtasks, verdicts, order, id);
    }
  }

  /** Without internal errors, an admitted problem crashes the program exactly if a dependency is missing. */
  lemma AdmittedCrashesIff(subtasks: seq<Subtask>, verdicts: Verdicts, order: seq<uint32>)
    requires Regular(subtasks) && Acyclic(Ids(subtasks), DependencyEdges(subtasks))
    requires forall s :: s in subtasks ==> NoInternalFailure(s, verdicts)
    requires JudgingOrder(subtasks, verdicts, order)
    ensures Crashes(subtasks, order) <==> !DependenciesExist(subtasks)
  {
    if DependenciesExist(subtasks) {
      RunVisits(subtasks, verdicts, order);
    } else {
      var s, id :| s in subtasks && id in s.dependencies && id !in Ids(subtasks);
      AdmittedNodeHasSoundPast(subtasks, verdicts, id);
      assert IsDependency(subtasks, id);
      JudgedIff(subtasks, verdicts, order, id);
    }
  }

  lemma AdmittedNodeHasSoundPast(subtasks: seq<Subtask>, verdicts: Verdicts, id: uint32)
    requires Regular(subtasks) && Acyclic(Ids(subtasks), DependencyEdges(subtasks))
    requires forall s :: s in subtasks ==> NoInternalFailure(s, verdicts)
    ensures SoundPast(DependencyEdges(subtasks), Answer(subtasks, verdicts), id)
  {
    var next := DependencyEdges(subtasks);
    forall u | Ancestor(next, u, id)
      ensures Answer(subtasks, verdicts)(u)
    {
      var p :| |p| >= 2 && PathBetween(next, p, u, id);
      EdgesComeFromSubtasks(subtasks, u, p[1]);
      AllJudgedIff(Find(subtasks, u), verdicts);
    }
    if BehindCycle(next, id) {
      var p, c :| IsCycle(next, c) && PathBetween(next, p, c[0], id);
      EdgesComeFromSubtasks(subtasks, c[0], c[1]);
      assert PathBetween(next, [c[0]], c[0], c[0]);
      assert ReachesCycle(next, c[0]);
    }
  }

  lemma EdgesComeFromSubtasks(subtasks: seq<Subtask>, u: uint32, v: uint32)
    requires DistinctIds(subtasks) && Edge(DependencyEdges(subtasks), u, v)
    ensures u in Ids(subtasks) && Find(subtasks, u) in subtasks
  {
    EdgesStartAtSubtasks(subtasks);
    assert u in ToSet(Ids(subtasks));
    FindListed(subtasks, u);
  }

  ghost predicate NoInternalFailure(s: Subtask, verdicts: Verdicts) {
    forall i :: 0 <= i < |s.testCases| ==> verdicts(s.id, i).Judged?
  }

  lemma AllJudgedIff(s: Subtask, verdicts: Verdicts)
    ensures AllJudged(s, verdicts) <==> NoInternalFailure(s, verdicts)
  {
  }

  /** Without internal errors the order of judging an admitted problem lists every subtask once. */
  lemma AdmittedOrder(subtasks: seq<Subtask>, verdicts: Verdicts, order: seq<uint32>)
    requires Judgeable(subtasks) && Acyclic(Ids(subtasks), DependencyEdges(subtasks))
    requires forall s :: s in subtasks ==> NoInternalFailure(s, verdicts)
    requires JudgingOrder(subtasks, verdicts, order)
    ensures multiset(order) == multiset(Ids(subtasks))
    ensures forall id :: id in order ==> AllJudged(Find(subtasks, id), verdicts)
  {
    var indeg, answers :| JudgingRun(subtasks, verdicts, order, indeg, answers);
    SubtaskGraphWellFormedIff(subtasks, indeg);
    RunVisits(subtasks, verdicts, order);
    forall id | id in order
      ensures AllJudged(Find(subtasks, id), verdicts)
    {
      AllJudgedIff(Find(subtasks, id), verdicts);
    }
    TraversalAgreesWithSearch(Ids(subtasks), indeg, DependencyEdges(subtasks), order, answers);
    DistinctSameElements(order, Ids(subtasks));
  }

  /** An admitted problem is judged completely if no internal error occurs, and no error is reported. */
  lemma AdmittedFullyJudged(subtasks: seq<Subtask>, verdicts: Verdicts, percentage: (Subtask, nat) -> int32,
                            order: seq<uint32>, results: map<uint32, SubtaskResult>)
    requires Judgeable(subtasks) && Acyclic(Ids(subtasks), DependencyEdges(subtasks))
    requires forall s :: s in subtasks ==> NoInternalFailure(s, verdicts)
    requires JudgingOrder(subtasks, verdicts, order) && ResultsAre(subtasks, verdicts, percentage, order, results)
    ensures multiset(order) == multiset(Ids(subtasks))
    ensures forall s :: s in subtasks
                        ==> s.id in results && results[s.id].isRun && IsResultOf(s, verdicts, percentage, results[s.id])
    ensures !ErrAfter(subtasks, verdicts, order)
  {
    AdmittedOrder(subtasks, verdicts, order);
    forall s | s in subtasks
      ensures s.id in order && s.id in results && ResultFor(s, verdicts, percentage, true, results[s.id])
    {
      IdListed(subtasks, s);
      assert s.id in multiset(Ids(subtasks));
    }
    ErrAfterIff(subtasks, verdicts, order);
  }

  // ----- the documented rule for dependencies

  /** Every case of the subtask was accepted. */
  ghost predicate FullyAccepted(s: Subtask, verdicts: Verdicts) {
    forall i :: 0 <= i < |s.testCases| ==> PassedCase(s, verdicts, i)
  }

  /** What the documentation promises of s: it is judged iff all its dependencies were judged and accepted. */
  ghost predicate FollowsRule(subtasks: seq<Subtask>, verdicts: Verdicts, order: seq<uint32>, s: Subtask) {
    s.id in order <==> forall d :: d in s.dependencies ==> d in order && FullyAccepted(Find(subtasks, d), verdicts)
  }

  ghost predicate AllFollowRule(subtasks: seq<Subtask>, verdicts: Verdicts, order: seq<uint32>) {
    forall s {:trigger FollowsRule(subtasks, verdicts, order, s)} ::
      s in subtasks ==> FollowsRule(subtasks, verdicts, order, s)
  }

  /** s has no internal error and what it depends on is accepted, unless it depends on nothing. */
  ghost predicate RuleIsVoidFor(subtasks: seq<Subtask>, verdicts: Verdicts, s: Subtask) {
    s.dependencies != []
    ==> AllJudged(s, verdicts) && forall d :: d in s.dependencies ==> FullyAccepted(Find(subtasks, d), verdicts)
  }

  ghost predicate RuleIsVoid(subtasks: seq<Subtask>, verdicts: Verdicts) {
    forall s {:trigger RuleIsVoidFor(subtasks, verdicts, s)} ::
      s in subtasks ==> RuleIsVoidFor(subtasks, verdicts, s)
  }

  /** On an admitted problem the documented rule holds exactly when it would exclude nothing. */
  lemma FollowsRuleIff(subtasks: seq<Subtask>, verdicts: Verdicts, order: seq<uint32>)
    requires Judgeable(subtasks) && Acyclic(Ids(subtasks), DependencyEdges(subtasks))
    requires JudgingOrder(subtasks, verdicts, order)
    ensures AllFollowRule(subtasks, verdicts, order) <==> RuleIsVoid(subtasks, verdicts)
  {
    AdmittedHasNoCycles(subtasks);
    if RuleIsVoid(subtasks, verdicts) {
      VoidRuleIsFollowedByAll(subtasks, verdicts, order);
    }
    if AllFollowRule(subtasks, verdicts, order) {
      FollowedRuleIsVoidForAll(subtasks, verdicts, order);
    }
  }

  ghost predicate NoneBehindCycle(subtasks: seq<Subtask>) {
    forall id :: id in Ids(subtasks) ==> !BehindCycle(DependencyEdges(subtasks), id)
  }

  lemma AdmittedHasNoCycles(subtasks: seq<Subtask>)
    requires Judgeable(subtasks) && Acyclic(Ids(subtasks), DependencyEdges(subtasks))
    ensures NoneBehindCycle(subtasks)
  {
    DependencyEdgesIff(subtasks);
    AcyclicIff(Ids(subtasks), DependencyEdges(subtasks));
  }

  lemma VoidRuleIsFollowedByAll(subtasks: seq<Subtask>, verdicts: Verdicts, order: seq<uint32>)
    requires Judgeable(subtasks) && JudgingOrder(subtasks, verdicts, order)
    requires NoneBehindCycle(subtasks)
    requires RuleIsVoid(subtasks, verdicts)
    ensures AllFollowRule(subtasks, verdicts, order)
  {
    forall s | s in subtasks
      ensures FollowsRule(subtasks, verdicts, order, s)
    {
      VoidRuleIsFollowed(subtasks, verdicts, order, s);
    }
  }

  lemma FollowedRuleIsVoidForAll(subtasks: seq<Subtask>, verdicts: Verdicts, order: seq<uint32>)
    requires Judgeable(subtasks) && JudgingOrder(subtasks, verdicts, order)
    requires NoneBehindCycle(subtasks)
    requires AllFollowRule(subtasks, verdicts, order)
    ensures RuleIsVoid(subtasks, verdicts)
  {
    RuleJudgesAll(subtasks, verdicts, order);
    forall s | s in subtasks
      ensures RuleIsVoidFor(subtasks, verdicts, s)
    {
      FollowedRuleIsVoid(subtasks, verdicts, order, s);
    }
  }

  lemma VoidRuleIsFollowed(subtasks: seq<Subtask>, verdicts: Verdicts, order: seq<uint32>, s: Subtask)
    requires Judgeable(subtasks) && JudgingOrder(subtasks, verdicts, order)
    requires NoneBehindCycle(subtasks)
    requires RuleIsVoid(subtasks, verdicts) && s in subtasks
    ensures FollowsRule(subtasks, verdicts, order, s)
  {
    IdListed(subtasks, s);
    VoidRuleJudgesAll(subtasks, verdicts, order, s.id);
    assert RuleIsVoidFor(subtasks, verdicts, s);
    forall d | d in s.dependencies
      ensures d in order
    {
      VoidRuleJudgesAll(subtasks, verdicts, order, d);
    }
  }

  lemma FollowedRuleIsVoid(subtasks: seq<Subtask>, verdicts: Verdicts, order: seq<uint32>, s: Subtask)
    requires Judgeable(subtasks) && JudgingOrder(subtasks, verdicts, order)
    requires s in subtasks && s.id in order && FollowsRule(subtasks, verdicts, order, s)
    ensures RuleIsVoidFor(subtasks, verdicts, s)
  {
    if s.dependencies != [] {
      assert s.dependencies[0] in order;
      var k: nat :| k < |order| && order[k] == s.dependencies[0];
      DependentsGoFirst(subtasks, verdicts, order, k, s);
    }
  }

  lemma VoidRuleJudgesAll(subtasks: seq<Subtask>, verdicts: Verdicts, order: seq<uint32>, id: uint32)
    requires Judgeable(subtasks) && JudgingOrder(subtasks, verdicts, order)
    requires RuleIsVoid(subtasks, verdicts)
    requires id in Ids(subtasks) && !BehindCycle(DependencyEdges(subtasks), id)
    ensures id in order
  {
    var next := DependencyEdges(subtasks);
    forall u | Ancestor(next, u, id)
      ensures Answer(subtasks, verdicts)(u)
    {
      var p :| |p| >= 2 && PathBetween(next, p, u, id);
      assert Edge(next, u, p[1]);
      DependencyEdgesIff(subtasks);
      var s :| s in subtasks && s.id == u && p[1] in s.dependencies;
      FindSubtask(subtasks, s);
      assert RuleIsVoidFor(subtasks, verdicts, s);
    }
    JudgedIff(subtasks, verdicts, order, id);
  }

  /** If every subtask follows the rule, all are judged: one that is not would have an unjudged subtask before it. */
  lemma RuleJudgesAll(subtasks: seq<Subtask>, verdicts: Verdicts, order: seq<uint32>)
    requires Judgeable(subtasks) && JudgingOrder(subtasks, verdicts, order)
    requires NoneBehindCycle(subtasks)
    requires AllFollowRule(subtasks, verdicts, order)
    ensures forall s :: s in subtasks ==> s.id in order
  {
    var next := DependencyEdges(subtasks);
    var unjudged := set id | id in Ids(subtasks) && id !in order;
    forall id | id in unjudged
      ensures HasSource(next, unjudged, id)
    {
      var u := UnjudgedHasUnjudgedSource(subtasks, verdicts, order, id);
    }
    if id :| id in unjudged {
      SourcelessIsBehindCycle(next, unjudged, id);
    }
    forall s | s in subtasks
      ensures s.id in order
    {
      IdListed(subtasks, s);
      assert s.id !in unjudged;
    }
  }

  lemma UnjudgedHasUnjudgedSource(subtasks: seq<Subtask>, verdicts: Verdicts, order: seq<uint32>, id: uint32)
    returns (u: uint32)
    requires Judgeable(subtasks) && JudgingOrder(subtasks, verdicts, order)
    requires AllFollowRule(subtasks, verdicts, order)
    requires id in Ids(subtasks) && id !in order
    ensures Edge(DependencyEdges(subtasks), u, id) && u in Ids(subtasks) && u !in order
  {
    var indeg, answers :| JudgingRun(subtasks, verdicts, order, indeg, answers);
    var next := DependencyEdges(subtasks);
    SubtaskGraphWellFormedIff(subtasks, indeg);
    u := UncalledHasUncalledSource(Ids(subtasks), indeg, next, order, answers, Answer(subtasks, verdicts), id);
    DependencyEdgesIff(subtasks);
    var s :| s in subtasks && s.id == u && id in s.dependencies;
    assert FollowsRule(subtasks, verdicts, order, s);
  }

  /** Of two subtasks, the second depends on the first. */
  ghost predicate IsPair(subtasks: seq<Subtask>) {
    && |subtasks| == 2 && subtasks[0].id != subtasks[1].id
    && subtasks[0].dependencies == [] && subtasks[1].dependencies == [subtasks[0].id]
    && CasesFit(subtasks)
  }

  lemma PairIsAdmitted(subtasks: seq<Subtask>)
    requires IsPair(subtasks)
    ensures Judgeable(subtasks) && Acyclic(Ids(subtasks), DependencyEdges(subtasks))
  {
    var ids, next := Ids(subtasks), DependencyEdges(subtasks);
    EdgesOfSubtask(subtasks, 0);
    EdgesOfSubtask(subtasks, 1);
    assert ids[..1] == [subtasks[0].id];
    forall v | v in ids
      ensures !ReachesCycle(next, v)
    {
      FinishedReachesNoCycle(next, ids, v);
    }
  }

  lemma OrderOfTwo(order: seq<uint32>, a: uint32, b: uint32, k: nat)
    requires |order| == 2 && k < 2 && order[k] == a && b in order[..k]
    ensures order == [b, a]
  {
  }

  /** The subtask that depends on the other is judged first, whatever the verdicts on the other will be. */
  lemma DependentOfPairGoesFirst(subtasks: seq<Subtask>, verdicts: Verdicts, order: seq<uint32>)
    requires IsPair(subtasks) && JudgingOrder(subtasks, verdicts, order)
    requires NoInternalFailure(subtasks[0], verdicts) && NoInternalFailure(subtasks[1], verdicts)
    ensures order == [subtasks[1].id, subtasks[0].id]
  {
    PairIsAdmitted(subtasks);
    AdmittedOrder(subtasks, verdicts, order);
    IdListed(subtasks, subtasks[0]);
    assert |multiset(order)| == |multiset(Ids(subtasks))|;
    assert subtasks[0].id in multiset(Ids(subtasks));
    var k: nat :| k < |order| && order[k] == subtasks[0].id;
    DependentsGoFirst(subtasks, verdicts, order, k, subtasks[1]);
    OrderOfTwo(order, subtasks[0].id, subtasks[1].id, k);
  }

  lemma WrongDependencyBreaksRule(subtasks: seq<Subtask>, verdicts: Verdicts, order: seq<uint32>)
    requires IsPair(subtasks) && JudgingOrder(subtasks, verdicts, order)
    requires NoInternalFailure(subtasks[0], verdicts) && NoInternalFailure(subtasks[1], verdicts)
    requires !FullyAccepted(subtasks[0], verdicts)
    ensures !FollowsRule(subtasks, verdicts, order, subtasks[1])
  {
    PairIsAdmitted(subtasks);
    DependentOfPairGoesFirst(subtasks, verdicts, order);
    FindSubtask(subtasks, subtasks[0]);
    assert subtasks[0].id in subtasks[1].dependencies;
  }

  /** The second subtask depends on the first, whose only case is wrong; it is judged nevertheless, and before it. */
  lemma WrongDependencyIsIgnored(subtasks: seq<Subtask>, verdicts: Verdicts, order: seq<uint32>, t: TestCase)
    requires |subtasks| == 2 && IsExample(subtasks[0], subtasks[1], t) && JudgingOrder(subtasks, verdicts, order)
    requires verdicts(1, 0) == Judged(WrongAnswer, 0, 0) && verdicts(2, 0) == Judged(Accepted, 0, 0)
    ensures order == [2, 1] && !FollowsRule(subtasks, verdicts, order, subtasks[1])
  {
    ExampleFacts(subtasks, verdicts, t);
    DependentOfPairGoesFirst(subtasks, verdicts, order);
    WrongDependencyBreaksRule(subtasks, verdicts, order);
  }

  ghost predicate IsExample(s1: Subtask, s2: Subtask, t: TestCase) {
    s1 == Subtask(1, 10, SUM, [], [t]) && s2 == Subtask(2, 10, SUM, [1], [t])
  }

  lemma ExampleFacts(subtasks: seq<Subtask>, verdicts: Verdicts, t: TestCase)
    requires |subtasks| == 2 && IsExample(subtasks[0], subtasks[1], t)
    requires verdicts(1, 0) == Judged(WrongAnswer, 0, 0) && verdicts(2, 0) == Judged(Accepted, 0, 0)
    ensures IsPair(subtasks) && !FullyAccepted(subtasks[0], verdicts)
    ensures NoInternalFailure(subtasks[0], verdicts) && NoInternalFailure(subtasks[1], verdicts)
  {
    assert !PassedCase(subtasks[0], verdicts, 0);
  }

  // ----- which error is reported

  ghost predicate FailedLast(subtasks: seq<Subtask>, verdicts: Verdicts, order: seq<uint32>, k: nat)
    requires k < |order|
  {
    && !AllJudged(Find(subtasks, order[k]), verdicts)
    && forall j :: k < j < |order| ==> Find(subtasks, order[j]).testCases == []
  }

  /** An error is reported exactly when the last judged subtask that has any case fails internally. */
  lemma {:induction false} ErrAfterIff(subtasks: seq<Subtask>, verdicts: Verdicts, order: seq<uint32>)
    ensures ErrAfter(subtasks, verdicts, order)
            <==> exists k :: 0 <= k < |order| && FailedLast(subtasks, verdicts, order, k)
  {
    if order != [] {
      var n := |order| - 1;
      var s := Find(subtasks, order[n]);
      ErrAfterIff(subtasks, verdicts, order[..n]);
      if s.testCases == [] {
        assert AllJudged(s, verdicts);
        forall k | 0 <= k < n
          ensures FailedLast(subtasks, verdicts, order, k) <==> FailedLast(subtasks, verdicts, order[..n], k)
        {
        }
      } else if !AllJudged(s, verdicts) {
        assert FailedLast(subtasks, verdicts, order, n);
      }
    }
  }

  /** Some judged subtask failed internally. */
  ghost predicate SomeFailure(subtasks: seq<Subtask>, verdicts: Verdicts, order: seq<uint32>) {
    exists k :: 0 <= k < |order| && !AllJudged(Find(subtasks, order[k]), verdicts)
  }

  /**
   * Failures are reported as they should be exactly unless some subtask fails and the last one judged after it that
   * has cases does not.
   */
  lemma FailureIsReportedIff(subtasks: seq<Subtask>, verdicts: Verdicts, order: seq<uint32>)
    ensures (ErrAfter(subtasks, verdicts, order) <==> SomeFailure(subtasks, verdicts, order))
            <==> !exists k, j :: 0 <= k < j < |order| && !AllJudged(Find(subtasks, order[k]), verdicts)
                                 && CleanLast(subtasks, verdicts, order, j)
  {
    ErrAfterIff(subtasks, verdicts, order);
    if SomeFailure(subtasks, verdicts, order) {
      var k: nat :| k < |order| && !AllJudged(Find(subtasks, order[k]), verdicts);
      var j := LastWithCases(subtasks, order, k);
      if AllJudged(Find(subtasks, order[j]), verdicts) {
        assert CleanLast(subtasks, verdicts, order, j);
      } else {
        assert FailedLast(subtasks, verdicts, order, j);
      }
    }
  }

  /** order[j] has cases, all of them judged, and no later subtask has any. */
  ghost predicate CleanLast(subtasks: seq<Subtask>, verdicts: Verdicts, order: seq<uint32>, j: nat)
    requires j < |order|
  {
    && Find(subtasks, order[j]).testCases != [] && AllJudged(Find(subtasks, order[j]), verdicts)
    && forall i :: j < i < |order| ==> Find(subtasks, order[i]).testCases == []
  }

  lemma {:induction false} LastWithCases(subtasks: seq<Subtask>, order: seq<uint32>, k: nat) returns (j: nat)
    requires k < |order| && Find(subtasks, order[k]).testCases != []
    ensures k <= j < |order| && Find(subtasks, order[j]).testCases != []
    ensures forall i :: j < i < |order| ==> Find(subtasks, order[i]).testCases == []
    decreases |order|
  {
    var n := |order| - 1;
    if Find(subtasks, order[n]).testCases != [] {
      j := n;
    } else {
      j := LastWithCases(subtasks, order[..n], k);
    }
  }

  lemma {:induction false} SourcesComeFirst(ids: seq<uint32>, in0: map<uint32, int>, next: Adjacency,
                                            order: seq<uint32>, answers: seq<bool>)
    requires |order| == |answers|
    ensures Sources(ids, in0) <= EntryOrder(ids, in0, next, order, answers)
  {
    if order != [] {
      var n := |order| - 1;
      SourcesComeFirst(ids, in0, next, order[..n], answers[..n]);
    }
  }

  lemma {:induction false} AllAreSources(ids: seq<uint32>, in0: map<uint32, int>)
    requires Counts(in0, multiset{})
    ensures Sources(ids, in0) == ids
  {
    if ids != [] {
      var n := |ids| - 1;
      AllAreSources(ids[..n], in0);
      assert CountsAt(in0, multiset{}, ids[n]);
      TakeOneMore(ids, n);
      TakeAll(ids);
    }
  }

  lemma {:induction false} NoDependencies(subtasks: seq<Subtask>)
    requires forall s :: s in subtasks ==> s.dependencies == []
    ensures AllDependencies(subtasks) == multiset{}
  {
    if subtasks != [] {
      var n := |subtasks| - 1;
      NoDependencies(subtasks[..n]);
    }
  }

  lemma PrefixOfSameLength(a: seq<uint32>, b: seq<uint32>)
    requires a <= b && |b| <= |a|
    ensures a == b
  {
  }

  /** Independent subtasks are judged in the order in which the problem lists them. */
  lemma IndependentInListOrder(subtasks: seq<Subtask>, verdicts: Verdicts, order: seq<uint32>)
    requires Judgeable(subtasks) && JudgingOrder(subtasks, verdicts, order)
    requires forall s :: s in subtasks ==> s.dependencies == []
    ensures order == Ids(subtasks)
  {
    var indeg, answers :| JudgingRun(subtasks, verdicts, order, indeg, answers);
    var ids, next := Ids(subtasks), DependencyEdges(subtasks);
    NoDependencies(subtasks);
    AllAreSources(ids, indeg);
    SourcesComeFirst(ids, indeg, next, order, answers);
    RunVisits(subtasks, verdicts, order);
    DistinctFits(order, ToSet(ids));
    SetFits(ids);
    PrefixOfSameLength(ids, order);
  }

  lemma {:induction false} SetFits(s: seq<uint32>)
    ensures |ToSet(s)| <= |s|
  {
    if s != [] {
      SetFits(s[1..]);
      assert ToSet(s) == {s[0]} + ToSet(s[1..]);
    }
  }

  /** Of two independent subtasks the first fails internally, the second is accepted: no error is reported. */
  lemma ErrorIsLost(subtasks: seq<Subtask>, verdicts: Verdicts, order: seq<uint32>, t: TestCase)
    requires |subtasks| == 2 && AreIndependent(subtasks[0], subtasks[1], t) && JudgingOrder(subtasks, verdicts, order)
    requires verdicts(1, 0) == InternalFailure && verdicts(2, 0) == Judged(Accepted, 0, 0)
    ensures SomeFailure(subtasks, verdicts, order) && !ErrAfter(subtasks, verdicts, order)
  {
    assert Judgeable(subtasks);
    IndependentInListOrder(subtasks, verdicts, order);
    assert order[0] == 1 && order[1] == 2;
    IndependentAnswers(subtasks, verdicts, t);
  }

  ghost predicate AreIndependent(s1: Subtask, s2: Subtask, t: TestCase) {
    s1 == Subtask(1, 10, SUM, [], [t]) && s2 == Subtask(2, 10, SUM, [], [t])
  }

  lemma IndependentAnswers(subtasks: seq<Subtask>, verdicts: Verdicts, t: TestCase)
    requires |subtasks| == 2 && AreIndependent(subtasks[0], subtasks[1], t)
    requires verdicts(1, 0) == InternalFailure && verdicts(2, 0) == Judged(Accepted, 0, 0)
    ensures !AllJudged(Find(subtasks, 1), verdicts)
    ensures AllJudged(Find(subtasks, 2), verdicts) && Find(subtasks, 2).testCases != []
  {
    FindSubtask(subtasks, subtasks[0]);
    FindSubtask(subtasks, subtasks[1]);
    AllJudgedIff(subtasks[0], verdicts);
    AllJudgedIff(subtasks[1], verdicts);
  }
}
