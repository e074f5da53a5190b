/** Judging a submission over the subtask graph (worker/worker.go, judgeOnDAG), without the upload of outputs. */
module Judging {
  import opened Dag
  import opened Digraph
  import opened Kahn
  import opened KahnTheory
  import opened Problems
  import opened Scoring
  import opened Seqs
  import opened SubtaskGraph

  /** The result of a subtask before it is called. */
  function Unjudged(s: Subtask): SubtaskResult {
    SubtaskResult(s.id, false, 0, s.scorePolicy, Invalid, 0, [])
  }

  function InitialScores(subtasks: seq<Subtask>): map<uint32, SubtaskResult> {
    if subtasks == [] then map[]
    else
      var last := subtasks[|subtasks| - 1];
      InitialScores(subtasks[..|subtasks| - 1])[last.id := Unjudged(last)]
  }

  /** The number of cases fits the divisor of the score. */
  ghost predicate CasesFit(subtasks: seq<Subtask>) {
    forall s :: s in subtasks ==> |s.testCases| < 0x8000_0000
  }

  /** No subtask id is repeated. Dependencies may be missing. */
  ghost predicate Regular(subtasks: seq<Subtask>) {
    DistinctIds(subtasks) && CasesFit(subtasks)
  }

  ghost predicate Judgeable(subtasks: seq<Subtask>) {
    Regular(subtasks) && DependenciesExist(subtasks)
  }

  function Find(subtasks: seq<Subtask>, id: uint32): Subtask {
    Lookup(SubtaskById(subtasks), NO_SUBTASK, id)
  }

  /** The callback's answer, by subtask id. */
  ghost function Answer(subtasks: seq<Subtask>, verdicts: Verdicts): uint32 -> bool {
    (id: uint32) => AllJudged(Find(subtasks, id), verdicts)
  }

  ghost predicate JudgingRun(subtasks: seq<Subtask>, verdicts: Verdicts, order: seq<uint32>,
                             indeg: map<uint32, int>, answers: seq<bool>) {
    && Counts(indeg, AllDependencies(subtasks))
    && KahnRun(Ids(subtasks), indeg, DependencyEdges(subtasks), order, answers)
    && order == EntryOrder(Ids(subtasks), indeg, DependencyEdges(subtasks), order, answers)
    && AnswersByNode(Answer(subtasks, verdicts), order, answers)
  }

  /** The subtasks are judged in this order. */
  ghost predicate JudgingOrder(subtasks: seq<Subtask>, verdicts: Verdicts, order: seq<uint32>) {
    exists indeg, answers :: JudgingRun(subtasks, verdicts, order, indeg, answers)
  }

  /** Whether the last case judged in this order failed internally. */
  function ErrAfter(subtasks: seq<Subtask>, verdicts: Verdicts, order: seq<uint32>): bool {
    if order == [] then false
    else
      var s := Find(subtasks, order[|order| - 1]);
      if s.testCases == [] then ErrAfter(subtasks, verdicts, order[..|order| - 1]) else !AllJudged(s, verdicts)
  }

  /** The outputs to upload, in the order of judging. */
  function AllOutputs(subtasks: seq<Subtask>, verdicts: Verdicts, limit: nat, order: seq<uint32>): seq<Output> {
    if order == [] then []
    else
      var s := Find(subtasks, order[|order| - 1]);
      AllOutputs(subtasks, verdicts, limit, order[..|order| - 1])
      + OutputsOf(s, verdicts, limit, Clean(s, verdicts, 0))
  }

  ghost predicate ResultFor(s: Subtask, verdicts: Verdicts, percentage: (Subtask, nat) -> int32, judged: bool,
                            r: SubtaskResult)
    requires |s.testCases| < 0x8000_0000
  {
    if judged then IsResultOf(s, verdicts, percentage, r) else r == Unjudged(s)
  }

  /** The results of all subtasks, when those of order have been judged. */
  ghost predicate ResultsAre(subtasks: seq<Subtask>, verdicts: Verdicts, percentage: (Subtask, nat) -> int32,
                             order: seq<uint32>, results: map<uint32, SubtaskResult>)
    requires CasesFit(subtasks)
  {
    && results.Keys == ToSet(Ids(subtasks))
    && forall s :: s in subtasks
                   ==> s.id in results && ResultFor(s, verdicts, percentage, s.id in order, results[s.id])
  }

  /** The results after these calls, whatever repetitions are among them. */
  ghost predicate Called(subtasks: seq<Subtask>, verdicts: Verdicts, percentage: (Subtask, nat) -> int32,
                         order: seq<uint32>, results: map<uint32, SubtaskResult>)
    requires CasesFit(subtasks)
    decreases |order|
  {
    if order == [] then results == InitialScores(subtasks)
    else
      var n := |order| - 1;
      exists before :: Called(subtasks, verdicts, percentage, order[..n], before)
                       && CalledOnce(Find(subtasks, order[n]), verdicts, percentage, order[n], before, results)
  }

  /** One call changes the result of its own subtask. */
  ghost predicate CalledOnce(s: Subtask, verdicts: Verdicts, percentage: (Subtask, nat) -> int32, id: uint32,
                             before: map<uint32, SubtaskResult>, after: map<uint32, SubtaskResult>) {
    && |s.testCases| < 0x8000_0000 && id in before && id in after && after == before[id := after[id]]
    && IsResultAfter(s, verdicts, percentage, before[id], after[id])
  }

  lemma CalledStep(subtasks: seq<Subtask>, verdicts: Verdicts, percentage: (Subtask, nat) -> int32,
                   order: seq<uint32>, before: map<uint32, SubtaskResult>, id: uint32, r: SubtaskResult)
    requires CasesFit(subtasks) && Called(subtasks, verdicts, percentage, order, before)
    requires id in before && Find(subtasks, id) in subtasks
    requires IsResultAfter(Find(subtasks, id), verdicts, percentage, before[id], r)
    ensures Called(subtasks, verdicts, percentage, order + [id], before[id := r])
  {
    var longer, after := order + [id], before[id := r];
    assert longer[..|order|] == order;
    assert CalledOnce(Find(subtasks, longer[|order|]), verdicts, percentage, longer[|order|], before, after);
  }

  /** Every result belongs to its subtask, with its policy. */
  lemma {:induction false} CalledLabels(subtasks: seq<Subtask>, verdicts: Verdicts,
                                        percentage: (Subtask, nat) -> int32, order: seq<uint32>,
                                        results: map<uint32, SubtaskResult>)
    requires CasesFit(subtasks) && Called(subtasks, verdicts, percentage, order, results)
    requires forall id :: id in order ==> id in Ids(subtasks)
    ensures results.Keys == ToSet(Ids(subtasks))
    ensures forall id :: id in results ==>
              results[id].id == id && results[id].scorePolicy == Find(subtasks, id).scorePolicy
    decreases |order|
  {
    if order == [] {
      InitialFound(subtasks);
    } else {
      var n := |order| - 1;
      var before :| Called(subtasks, verdicts, percentage, order[..n], before)
                    && CalledOnce(Find(subtasks, order[n]), verdicts, percentage, order[n], before, results);
      CalledLabels(subtasks, verdicts, percentage, order[..n], before);
      FindListed(subtasks, order[n]);
    }
  }

  lemma {:induction false} InitialFound(subtasks: seq<Subtask>)
    ensures InitialScores(subtasks).Keys == ToSet(Ids(subtasks))
    ensures forall id :: id in InitialScores(subtasks) ==>
              InitialScores(subtasks)[id] == Unjudged(Find(subtasks, id)) && Find(subtasks, id).id == id
  {
    if subtasks != [] {
      var n := |subtasks| - 1;
      InitialFound(subtasks[..n]);
      EdgesStartAtSubtasks(subtasks[..n]);
      assert Ids(subtasks) == Ids(subtasks[..n]) + [subtasks[n].id];
    }
  }

  lemma IdListed(subtasks: seq<Subtask>, s: Subtask)
    requires s in subtasks
    ensures s.id in Ids(subtasks)
  {
    var i: nat :| i < |subtasks| && subtasks[i] == s;
    assert Ids(subtasks)[i] == s.id;
  }

  lemma {:induction false} FindListed(subtasks: seq<Subtask>, id: uint32)
    requires id in Ids(subtasks)
    ensures Find(subtasks, id) in subtasks && Find(subtasks, id).id == id
  {
    var n := |subtasks| - 1;
    if id != subtasks[n].id {
      assert Ids(subtasks) == Ids(subtasks[..n]) + [subtasks[n].id];
      FindListed(subtasks[..n], id);
    }
  }

  lemma FindSubtask(subtasks: seq<Subtask>, s: Subtask)
    requires DistinctIds(subtasks) && s in subtasks
    ensures Find(subtasks, s.id) == s && s.id in Ids(subtasks)
    ensures Succs(DependencyEdges(subtasks), s.id) == s.dependencies
  {
    var i: nat :| i < |subtasks| && subtasks[i] == s;
    EdgesOfSubtask(subtasks, i);
    IdListed(subtasks, s);
  }

  lemma {:induction false} InitialKeys(subtasks: seq<Subtask>)
    ensures InitialScores(subtasks).Keys == ToSet(Ids(subtasks))
  {
    if subtasks != [] {
      var n := |subtasks| - 1;
      InitialKeys(subtasks[..n]);
      assert Ids(subtasks) == Ids(subtasks[..n]) + [subtasks[n].id];
    }
  }

  lemma {:induction false} InitialResult(subtasks: seq<Subtask>, i: nat)
    requires DistinctIds(subtasks) && i < |subtasks|
    ensures subtasks[i].id in InitialScores(subtasks)
    ensures InitialScores(subtasks)[subtasks[i].id] == Unjudged(subtasks[i])
  {
    var n := |subtasks| - 1;
    if i < n {
      InitialResult(subtasks[..n], i);
    }
  }

  lemma ResultsStart(subtasks: seq<Subtask>, verdicts: Verdicts, percentage: (Subtask, nat) -> int32)
    requires DistinctIds(subtasks) && CasesFit(subtasks)
    ensures ResultsAre(subtasks, verdicts, percentage, [], InitialScores(subtasks))
  {
    InitialKeys(subtasks);
    forall s | s in subtasks
      ensures s.id in InitialScores(subtasks) && InitialScores(subtasks)[s.id] == Unjudged(s)
    {
      var i: nat :| i < |subtasks| && subtasks[i] == s;
      InitialResult(subtasks, i);
    }
  }

  lemma ResultsStep(subtasks: seq<Subtask>, verdicts: Verdicts, percentage: (Subtask, nat) -> int32,
                    order: seq<uint32>, results: map<uint32, SubtaskResult>, id: uint32, r: SubtaskResult)
    requires Regular(subtasks) && ResultsAre(subtasks, verdicts, percentage, order, results)
    requires id in Ids(subtasks) && Find(subtasks, id) in subtasks
    requires IsResultOf(Find(subtasks, id), verdicts, percentage, r)
    ensures ResultsAre(subtasks, verdicts, percentage, order + [id], results[id := r])
  {
    var results' := results[id := r];
    forall s | s in subtasks
      ensures s.id in results'
      ensures ResultFor(s, verdicts, percentage, s.id in order + [id], results'[s.id])
    {
      FindSubtask(subtasks, s);
      assert ResultFor(s, verdicts, percentage, s.id in order, results[s.id]);
    }
  }

  /** Without repetitions every subtask called has the result of one run, and the others are as they were. */
  lemma {:induction false} CalledOnceEach(subtasks: seq<Subtask>, verdicts: Verdicts,
                                          percentage: (Subtask, nat) -> int32, order: seq<uint32>,
                                          results: map<uint32, SubtaskResult>)
    requires Regular(subtasks) && Called(subtasks, verdicts, percentage, order, results)
    requires Distinct(order) && forall id :: id in order ==> id in Ids(subtasks)
    ensures ResultsAre(subtasks, verdicts, percentage, order, results)
    decreases |order|
  {
    if order == [] {
      ResultsStart(subtasks, verdicts, percentage);
    } else {
      var n := |order| - 1;
      var id := order[n];
      var before :| Called(subtasks, verdicts, percentage, order[..n], before)
                    && CalledOnce(Find(subtasks, id), verdicts, percentage, id, before, results);
      CalledOnceEach(subtasks, verdicts, percentage, order[..n], before);
      FirstCall(subtasks, verdicts, percentage, order[..n], id, before, results);
      TakeOneMore(order, n);
      TakeAll(order);
    }
  }

  lemma FirstCall(subtasks: seq<Subtask>, verdicts: Verdicts, percentage: (Subtask, nat) -> int32, order: seq<uint32>,
                  id: uint32, before: map<uint32, SubtaskResult>, after: map<uint32, SubtaskResult>)
    requires Regular(subtasks) && ResultsAre(subtasks, verdicts, percentage, order, before)
    requires id in Ids(subtasks) && id !in order
    requires CalledOnce(Find(subtasks, id), verdicts, percentage, id, before, after)
    ensures ResultsAre(subtasks, verdicts, percentage, order + [id], after)
  {
    FindListed(subtasks, id);
    var s := Find(subtasks, id);
    assert ResultFor(s, verdicts, percentage, s.id in order, before[s.id]);
    FirstResult(s, verdicts, percentage, before[id], after[id]);
    ResultsStep(subtasks, verdicts, percentage, order, before, id, after[id]);
  }

  /** A subtask counts as run exactly if it was called; until then its conclusion is Invalid and its record is empty. */
  lemma {:induction false} RunIff(subtasks: seq<Subtask>, verdicts: Verdicts, percentage: (Subtask, nat) -> int32,
                                  order: seq<uint32>, results: map<uint32, SubtaskResult>, id: uint32)
    requires CasesFit(subtasks) && Called(subtasks, verdicts, percentage, order, results)
    requires id in Ids(subtasks)
    ensures id in results && (results[id].isRun <==> id in order)
    ensures id !in order ==> && results[id].conclusion == Invalid && results[id].score == 0
                             && results[id].totalTime == 0 && results[id].caseResults == []
    decreases |order|
  {
    if order == [] {
      InitialFound(subtasks);
    } else {
      var n := |order| - 1;
      var before :| Called(subtasks, verdicts, percentage, order[..n], before)
                    && CalledOnce(Find(subtasks, order[n]), verdicts, percentage, order[n], before, results);
      RunIff(subtasks, verdicts, percentage, order[..n], before, id);
      assert id in order <==> id in order[..n] || id == order[n];
    }
  }

  /** The run as one over all nodes of the graph, the missing dependencies included. */
  lemma ExtendedRun(subtasks: seq<Subtask>, verdicts: Verdicts, order: seq<uint32>)
    returns (ids: seq<uint32>, indeg: map<uint32, int>, answers: seq<bool>)
    requires Regular(subtasks) && JudgingOrder(subtasks, verdicts, order)
    ensures WellFormed(ids, indeg, DependencyEdges(subtasks))
    ensures KahnRun(ids, indeg, DependencyEdges(subtasks), order, answers)
    ensures AnswersByNode(Answer(subtasks, verdicts), order, answers)
    ensures forall v :: v in ids <==> IsNode(subtasks, v)
  {
    indeg, answers :| JudgingRun(subtasks, verdicts, order, indeg, answers);
    var missing := MissingDependencies(subtasks);
    ids := Ids(subtasks) + missing;
    ExtendedGraph(subtasks, indeg, missing);
    ListingLeaves(Ids(subtasks), missing, indeg, DependencyEdges(subtasks), order, answers);
  }

  /**
   * Every node called is a subtask or a missing dependency. What nobody depends on is called as often as it is listed,
   * everything else at most once.
   */
  lemma RunNodes(subtasks: seq<Subtask>, verdicts: Verdicts, order: seq<uint32>, id: uint32)
    requires JudgingOrder(subtasks, verdicts, order)
    ensures id in order ==> IsNode(subtasks, id)
    ensures !IsDependency(subtasks, id) ==> multiset(order)[id] == multiset(Ids(subtasks))[id]
    ensures IsDependency(subtasks, id) ==> multiset(order)[id] <= 1
  {
    var indeg, answers :| JudgingRun(subtasks, verdicts, order, indeg, answers);
    DependenciesCounted(subtasks, id);
    assert CountsAt(indeg, AllDependencies(subtasks), id);
    assert id in order <==> multiset(order)[id] > 0;
  }

  /** No subtask is called twice exactly if every repeated id is a dependency of some subtask. */
  lemma CallsAreDistinctIff(subtasks: seq<Subtask>, verdicts: Verdicts, order: seq<uint32>)
    requires JudgingOrder(subtasks, verdicts, order)
    ensures Distinct(order) <==> forall id :: multiset(Ids(subtasks))[id] > 1 ==> IsDependency(subtasks, id)
  {
    forall id
      ensures multiset(order)[id] <= 1 <==> (multiset(Ids(subtasks))[id] > 1 ==> IsDependency(subtasks, id))
    {
      RunNodes(subtasks, verdicts, order, id);
    }
    if Distinct(order) {
      forall id {
        DistinctMultiplicity(order, id);
      }
    } else if forall id :: multiset(order)[id] <= 1 {
      MultiplicityDistinct(order);
    }
  }

  /** Without repeated ids no node is called twice. */
  lemma RegularRun(subtasks: seq<Subtask>, verdicts: Verdicts, order: seq<uint32>)
    requires Regular(subtasks) && JudgingOrder(subtasks, verdicts, order)
    ensures Distinct(order)
  {
    DistinctIdsDistinct(subtasks);
    forall id {
      DistinctMultiplicity(Ids(subtasks), id);
    }
    CallsAreDistinctIff(subtasks, verdicts, order);
  }

  /** If no dependency is missing, every call gets its subtask, and none twice. */
  lemma RunVisits(subtasks: seq<Subtask>, verdicts: Verdicts, order: seq<uint32>)
    requires Judgeable(subtasks) && JudgingOrder(subtasks, verdicts, order)
    ensures Distinct(order)
    ensures forall id :: id in order ==> id in Ids(subtasks) && Find(subtasks, id) in subtasks
                                         && Find(subtasks, id).id == id
  {
    RegularRun(subtasks, verdicts, order);
    forall id | id in order
      ensures id in Ids(subtasks) && Find(subtasks, id) in subtasks && Find(subtasks, id).id == id
    {
      RunNodes(subtasks, verdicts, order, id);
      FindListed(subtasks, id);
    }
  }

  /** The traversal calls a subtask that is not there. */
  ghost predicate Crashes(subtasks: seq<Subtask>, order: seq<uint32>) {
    exists id :: id in order && id !in Ids(subtasks)
  }

  lemma OneMoreJudged(subtasks: seq<Subtask>, verdicts: Verdicts, limit: nat, order: seq<uint32>, i: nat)
    requires i < |order|
    ensures var s := Find(subtasks, order[i]);
            && order[..i + 1] == order[..i] + [order[i]]
            && AllOutputs(subtasks, verdicts, limit, order[..i + 1])
               == AllOutputs(subtasks, verdicts, limit, order[..i])
                  + OutputsOf(s, verdicts, limit, Clean(s, verdicts, 0))
            && ErrAfter(subtasks, verdicts, order[..i + 1])
               == if s.testCases == [] then ErrAfter(subtasks, verdicts, order[..i]) else !AllJudged(s, verdicts)
  {
    assert order[..i + 1][..i] == order[..i];
  }

  /**
   * The subtasks in the order in which the traversal calls them. A call for a missing dependency, which ends the
   * program, is listed like any other.
   */
  method Schedule(p: Problem, verdicts: Verdicts) returns (order: seq<uint32>)
    ensures JudgingOrder(p.subtasks, verdicts, order)
  {
    var g := NewSubtaskGraph(p);
    ghost var indeg, answers := g.In, [];
    var vis;
    vis, order, answers := g.Traverse((history, s) => AllJudged(s, verdicts));
    assert JudgingRun(p.subtasks, verdicts, order, indeg, answers);
  }

  method InitScores(p: Problem) returns (score: map<uint32, SubtaskResult>)
    ensures score == InitialScores(p.subtasks)
  {
    score := map[];
    for i := 0 to |p.subtasks|
      invariant score == InitialScores(p.subtasks[..i])
    {
      var s := p.subtasks[i];
      assert p.subtasks[..i + 1][..i] == p.subtasks[..i];
      score := score[s.id := Unjudged(s)];
    }
    TakeAll(p.subtasks);
  }

  /**
   * Judges the subtasks that the traversal reaches, unless it runs into a missing dependency, whose nil subtask it
   * dereferences. The out-parameter err is the error that is left in the end, and outputs are those handed to the
   * uploader, in order.
   */
  method JudgeOnDAG(p: Problem, verdicts: Verdicts, limit: nat, percentage: (Subtask, nat) -> int32)
    returns (crashed: bool, results: map<uint32, SubtaskResult>, outputs: seq<Output>, err: bool, order: seq<uint32>)
    requires CasesFit(p.subtasks)
    ensures JudgingOrder(p.subtasks, verdicts, order)
    ensures crashed <==> Crashes(p.subtasks, order)
    ensures !crashed ==> Called(p.subtasks, verdicts, percentage, order, results)
    ensures !crashed && Regular(p.subtasks) ==> ResultsAre(p.subtasks, verdicts, percentage, order, results)
    ensures !crashed ==> outputs == AllOutputs(p.subtasks, verdicts, limit, order)
    ensures !crashed ==> err == ErrAfter(p.subtasks, verdicts, order)
  {
    results := InitScores(p);
    order := Schedule(p, verdicts);
    crashed, outputs, err := false, [], false;
    for i := 0 to |order|
      invariant forall id :: id in order[..i] ==> id in Ids(p.subtasks)
      invariant Called(p.subtasks, verdicts, percentage, order[..i], results)
      invariant outputs == AllOutputs(p.subtasks, verdicts, limit, order[..i])
      invariant err == ErrAfter(p.subtasks, verdicts, order[..i])
    {
      var id := order[i];
      if id !in Ids(p.subtasks) {
        crashed := true;
        return;
      }
      FindListed(p.subtasks, id);
      CalledLabels(p.subtasks, verdicts, percentage, order[..i], results);
      var r, produced, pass;
      r, produced, pass, err := JudgeSubtask(Find(p.subtasks, id), results[id], verdicts, limit, percentage, err);
      CalledStep(p.subtasks, verdicts, percentage, order[..i], results, id, r);
      OneMoreJudged(p.subtasks, verdicts, limit, order, i);
      results := results[id := r];
      outputs := outputs + produced;
    }
    TakeAll(order);
    RegularResults(p.subtasks, verdicts, percentage, order, results);
  }

  lemma RegularResults(subtasks: seq<Subtask>, verdicts: Verdicts, percentage: (Subtask, nat) -> int32,
                       order: seq<uint32>, results: map<uint32, SubtaskResult>)
    requires CasesFit(subtasks) && JudgingOrder(subtasks, verdicts, order)
    requires !Crashes(subtasks, order) && Called(subtasks, verdicts, percentage, order, results)
    ensures Regular(subtasks) ==> ResultsAre(subtasks, verdicts, percentage, order, results)
  {
    if Regular(subtasks) {
      RegularRun(subtasks, verdicts, order);
      CalledOnceEach(subtasks, verdicts, percentage, order, results);
    }
  }
}
