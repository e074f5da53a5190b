/** The verdict on a submission, from the results of its subtasks (worker/worker.go, the end of work). */
module Verdict {
  import opened Digraph
  import opened Judging
  import opened JudgingTheory
  import opened KahnTheory
  import opened Problems
  import opened Scoring
  import opened ScoreTheory
  import opened Seqs
  import opened SubtaskGraph

  function Total(list: seq<SubtaskResult>, weight: SubtaskResult -> int): int {
    if list == [] then 0 else Total(list[..|list| - 1], weight) + weight(list[|list| - 1])
  }

  function ScoreTotal(list: seq<SubtaskResult>): int {
    Total(list, (r: SubtaskResult) => r.score)
  }

  function TimeTotal(list: seq<SubtaskResult>): int {
    Total(list, (r: SubtaskResult) => r.totalTime)
  }

  ghost predicate Rejects(r: SubtaskResult) {
    r.isRun && r.conclusion != Accepted
  }

  ghost predicate NoneRejects(list: seq<SubtaskResult>) {
    forall i :: 0 <= i < |list| ==> !Rejects(list[i])
  }

  ghost predicate RejectsLast(list: seq<SubtaskResult>, k: nat)
    requires k < |list|
  {
    Rejects(list[k]) && forall j :: k < j < |list| ==> !Rejects(list[j])
  }

  /** Some subtask that was run concludes with c, and no later one rejects. */
  ghost predicate LastRejection(list: seq<SubtaskResult>, c: Conclusion) {
    exists k :: 0 <= k < |list| && RejectsLast(list, k) && list[k].conclusion == c
  }

  lemma OneMoreResult(list: seq<SubtaskResult>, i: nat)
    requires i < |list|
    ensures ScoreTotal(list[..i + 1]) == ScoreTotal(list[..i]) + list[i].score
    ensures TimeTotal(list[..i + 1]) == TimeTotal(list[..i]) + list[i].totalTime
  {
    assert list[..i + 1][..i] == list[..i];
  }

  /** The conclusion after the first results: accepted, or the last rejection. */
  ghost predicate Concludes(list: seq<SubtaskResult>, c: Conclusion) {
    if c == Accepted then NoneRejects(list) else LastRejection(list, c)
  }

  lemma OneMoreConclusion(list: seq<SubtaskResult>, i: nat, c: Conclusion)
    requires i < |list| && Concludes(list[..i], c)
    ensures Concludes(list[..i + 1], if Rejects(list[i]) then list[i].conclusion else c)
  {
    var longer := list[..i + 1];
    if Rejects(list[i]) {
      assert RejectsLast(longer, i);
    } else if c != Accepted {
      var k :| 0 <= k < i && RejectsLast(list[..i], k) && list[..i][k].conclusion == c;
      assert RejectsLast(longer, k);
    }
  }

  /** Adds up scores and times, with wrap-around; any rejection of a subtask that was run rejects the submission. */
  method Summarize(list: seq<SubtaskResult>) returns (score: int32, conclusion: Conclusion, totalTime: uint32)
    ensures score == Wrap32(ScoreTotal(list)) && totalTime == WrapU32(TimeTotal(list))
    ensures Concludes(list, conclusion)
  {
    totalTime := 0;
    for i := 0 to |list|
      invariant totalTime == WrapU32(TimeTotal(list[..i]))
    {
      OneMoreResult(list, i);
      WrapAdd(TimeTotal(list[..i]), list[i].totalTime);
      totalTime := WrapU32(totalTime + list[i].totalTime);
    }
    score, conclusion := 0, Accepted;
    for i := 0 to |list|
      invariant score == Wrap32(ScoreTotal(list[..i]))
      invariant Concludes(list[..i], conclusion)
    {
      OneMoreResult(list, i);
      OneMoreConclusion(list, i, conclusion);
      WrapScore(ScoreTotal(list[..i]), list[i].score);
      score := Wrap32(score + list[i].score);
      if list[i].isRun && list[i].conclusion != Accepted {
        conclusion := list[i].conclusion;
      }
    }
    TakeAll(list);
  }

  // ----- the order in which a map is enumerated

  /** The values of the map, in the order of these keys. */
  ghost predicate ListedBy(results: map<uint32, SubtaskResult>, list: seq<SubtaskResult>, keys: seq<uint32>) {
    && Distinct(keys) && ToSet(keys) == results.Keys && |list| == |keys|
    && forall i :: 0 <= i < |keys| ==> keys[i] in results && list[i] == results[keys[i]]
  }

  ghost predicate IsListing(results: map<uint32, SubtaskResult>, list: seq<SubtaskResult>) {
    exists keys :: ListedBy(results, list, keys)
  }

  ghost predicate Labelled(results: map<uint32, SubtaskResult>) {
    forall id :: id in results ==> results[id].id == id
  }

  lemma ListingHolds(results: map<uint32, SubtaskResult>, list: seq<SubtaskResult>)
    requires Labelled(results) && IsListing(results, list)
    ensures Distinct(list)
    ensures forall r: SubtaskResult :: r in list <==> r.id in results && results[r.id] == r
  {
  }

  lemma {:induction false} TotalConcat(a: seq<SubtaskResult>, b: seq<SubtaskResult>, weight: SubtaskResult -> int)
    ensures Total(a + b, weight) == Total(a, weight) + Total(b, weight)
  {
    if b == [] {
      assert a + b == a;
    } else {
      var n := |b| - 1;
      TotalConcat(a, b[..n], weight);
      assert (a + b)[..|a + b| - 1] == a + b[..n];
    }
  }

  lemma TotalWithout(list: seq<SubtaskResult>, i: nat, weight: SubtaskResult -> int)
    requires i < |list|
    ensures Total(list, weight) == Total(list[..i] + list[i + 1..], weight) + weight(list[i])
  {
    TotalConcat(list[..i], list[i + 1..], weight);
    TotalConcat(list[..i + 1], list[i + 1..], weight);
    TakeDrop(list, i + 1);
    assert list[..i + 1][..i] == list[..i];
  }

  lemma {:induction false} TotalIgnoresOrder(a: seq<SubtaskResult>, b: seq<SubtaskResult>,
                                             weight: SubtaskResult -> int)
    requires multiset(a) == multiset(b)
    ensures Total(a, weight) == Total(b, weight)
  {
    if a == [] {
      assert |multiset(b)| == 0;
    } else {
      var n := |a| - 1;
      assert a[n] in multiset(b);
      var i: nat :| i < |b| && b[i] == a[n];
      RemoveOne(a, n);
      RemoveOne(b, i);
      TotalWithout(a, n, weight);
      TotalWithout(b, i, weight);
      TotalIgnoresOrder(a[..n] + a[n + 1..], b[..i] + b[i + 1..], weight);
    }
  }

  lemma RejectionIgnoresOrder(a: seq<SubtaskResult>, b: seq<SubtaskResult>)
    requires forall r :: r in b ==> r in a
    ensures NoneRejects(a) ==> NoneRejects(b)
  {
    forall i | 0 <= i < |b|
      ensures b[i] in a
    {
    }
  }

  /** Neither the totals nor acceptance depend on the order in which the map is enumerated. */
  lemma ListingOrderIsInvisible(results: map<uint32, SubtaskResult>, a: seq<SubtaskResult>, b: seq<SubtaskResult>)
    requires Labelled(results) && IsListing(results, a) && IsListing(results, b)
    ensures ScoreTotal(a) == ScoreTotal(b) && TimeTotal(a) == TimeTotal(b)
    ensures NoneRejects(a) <==> NoneRejects(b)
  {
    ListingsAgree(results, a, b);
    RejectionIgnoresOrder(a, b);
    RejectionIgnoresOrder(b, a);
    TotalIgnoresOrder(a, b, (r: SubtaskResult) => r.score);
    TotalIgnoresOrder(a, b, (r: SubtaskResult) => r.totalTime);
  }

  lemma ListingsAgree(results: map<uint32, SubtaskResult>, a: seq<SubtaskResult>, b: seq<SubtaskResult>)
    requires Labelled(results) && IsListing(results, a) && IsListing(results, b)
    ensures multiset(a) == multiset(b) && forall r :: r in a <==> r in b
  {
    ListingHolds(results, a);
    ListingHolds(results, b);
    DistinctSameElements(a, b);
  }

  /** Any rejection can be listed last, and then decides the conclusion. */
  lemma RejectionCanWin(results: map<uint32, SubtaskResult>, x: uint32) returns (list: seq<SubtaskResult>)
    requires x in results && Rejects(results[x])
    ensures IsListing(results, list) && Concludes(list, results[x].conclusion)
  {
    var others := ListSet(results.Keys - {x});
    var keys := others + [x];
    assert forall id :: id in keys <==> id in results;
    assert forall i :: 0 <= i < |keys| ==> keys[i] in keys;
    list := seq(|keys|, i requires 0 <= i < |keys| => results[keys[i]]);
    assert ListedBy(results, list, keys);
    assert RejectsLast(list, |others|);
  }

  /** All rejections conclude the same. */
  ghost predicate RejectionsAgree(results: map<uint32, SubtaskResult>) {
    forall x, y :: x in results && y in results && Rejects(results[x]) && Rejects(results[y])
                   ==> results[x].conclusion == results[y].conclusion
  }

  lemma ConclusionComesFrom(results: map<uint32, SubtaskResult>, list: seq<SubtaskResult>, c: Conclusion)
    returns (x: uint32)
    requires Labelled(results) && IsListing(results, list) && Concludes(list, c) && c != Accepted
    ensures x in results && Rejects(results[x]) && results[x].conclusion == c
  {
    ListingHolds(results, list);
    var k :| 0 <= k < |list| && RejectsLast(list, k) && list[k].conclusion == c;
    assert list[k] in list;
    x := list[k].id;
  }

  lemma AgreedConclusion(results: map<uint32, SubtaskResult>, a: seq<SubtaskResult>, b: seq<SubtaskResult>,
                         c: Conclusion, d: Conclusion)
    requires Labelled(results) && RejectionsAgree(results) && IsListing(results, a) && IsListing(results, b)
    requires Concludes(a, c) && Concludes(b, d)
    ensures c == d
  {
    ListingOrderIsInvisible(results, a, b);
    if c != Accepted && d != Accepted {
      var x := ConclusionComesFrom(results, a, c);
      var y := ConclusionComesFrom(results, b, d);
    }
  }

  ghost predicate CanConclude(results: map<uint32, SubtaskResult>, c: Conclusion) {
    exists list :: IsListing(results, list) && Concludes(list, c)
  }

  /** The conclusion does not depend on the order of enumeration exactly if all rejections agree. */
  lemma ConclusionIsUniqueIff(results: map<uint32, SubtaskResult>)
    requires Labelled(results)
    ensures (forall c, d :: CanConclude(results, c) && CanConclude(results, d) ==> c == d) <==> RejectionsAgree(results)
  {
    if RejectionsAgree(results) {
      forall c, d | CanConclude(results, c) && CanConclude(results, d)
        ensures c == d
      {
        var a :| IsListing(results, a) && Concludes(a, c);
        var b :| IsListing(results, b) && Concludes(b, d);
        AgreedConclusion(results, a, b, c, d);
      }
    }
    forall x | x in results && Rejects(results[x])
      ensures CanConclude(results, results[x].conclusion)
    {
      var list := RejectionCanWin(results, x);
    }
  }

  lemma BothRejectionsCanWin(results: map<uint32, SubtaskResult>, x: uint32, y: uint32)
    requires x in results && Rejects(results[x])
    requires y in results && Rejects(results[y])
    ensures CanConclude(results, results[x].conclusion) && CanConclude(results, results[y].conclusion)
  {
    var a := RejectionCanWin(results, x);
    var b := RejectionCanWin(results, y);
  }

  /** Of a wrong answer and a timeout either may become the conclusion. */
  lemma ConclusionDependsOnListing(results: map<uint32, SubtaskResult>)
    requires forall id :: id in results <==> id == 1 || id == 2
    requires IsWrongAnswer(results[1]) && IsTimeout(results[2])
    ensures Labelled(results)
    ensures CanConclude(results, WrongAnswer) && CanConclude(results, TimeLimitExceeded)
  {
    BothRejectionsCanWin(results, 1, 2);
  }

  predicate IsWrongAnswer(r: SubtaskResult) {
    r == SubtaskResult(1, true, 0, SUM, WrongAnswer, 0, [])
  }

  predicate IsTimeout(r: SubtaskResult) {
    r == SubtaskResult(2, true, 0, SUM, TimeLimitExceeded, 0, [])
  }

  // ----- the verdict on an admitted problem

  /** The scores of all subtasks, each from its own cases. */
  function ScoresOf(subtasks: seq<Subtask>, verdicts: Verdicts, percentage: (Subtask, nat) -> int32): int
    requires forall s :: s in subtasks ==> |s.testCases| < 0x8000_0000
  {
    if subtasks == [] then 0
    else
      var n := |subtasks| - 1;
      var s := subtasks[n];
      ScoresOf(subtasks[..n], verdicts, percentage)
      + ScoreOf(s, PassedCount(s, verdicts, |s.testCases|), true, percentage)
  }

  ghost predicate CompleteResults(subtasks: seq<Subtask>, verdicts: Verdicts, percentage: (Subtask, nat) -> int32,
                                  results: map<uint32, SubtaskResult>)
    requires CasesFit(subtasks)
  {
    && results.Keys == ToSet(Ids(subtasks))
    && forall s :: s in subtasks ==> AllJudged(s, verdicts) && s.id in results
                                     && IsResultOf(s, verdicts, percentage, results[s.id])
  }

  lemma CompleteIsLabelled(subtasks: seq<Subtask>, verdicts: Verdicts, percentage: (Subtask, nat) -> int32,
                           results: map<uint32, SubtaskResult>)
    requires Judgeable(subtasks) && CompleteResults(subtasks, verdicts, percentage, results)
    ensures Labelled(results)
  {
  }

  function InProblemOrder(subtasks: seq<Subtask>, results: map<uint32, SubtaskResult>): seq<SubtaskResult>
    requires forall s :: s in subtasks ==> s.id in results
  {
    if subtasks == [] then []
    else
      var n := |subtasks| - 1;
      InProblemOrder(subtasks[..n], results) + [results[subtasks[n].id]]
  }

  lemma {:induction false} ProblemOrderLists(subtasks: seq<Subtask>, results: map<uint32, SubtaskResult>)
    requires forall s :: s in subtasks ==> s.id in results
    ensures |InProblemOrder(subtasks, results)| == |subtasks|
    ensures forall i :: 0 <= i < |subtasks| ==> InProblemOrder(subtasks, results)[i] == results[subtasks[i].id]
  {
    if subtasks != [] {
      ProblemOrderLists(subtasks[..|subtasks| - 1], results);
    }
  }

  lemma {:induction false} ProblemOrderTotal(subtasks: seq<Subtask>, verdicts: Verdicts,
                                             percentage: (Subtask, nat) -> int32, results: map<uint32, SubtaskResult>)
    requires CasesFit(subtasks)
    requires forall s :: s in subtasks ==> AllJudged(s, verdicts) && s.id in results
                                           && IsResultOf(s, verdicts, percentage, results[s.id])
    ensures ScoreTotal(InProblemOrder(subtasks, results)) == ScoresOf(subtasks, verdicts, percentage)
  {
    if subtasks != [] {
      var n := |subtasks| - 1;
      ProblemOrderTotal(subtasks[..n], verdicts, percentage, results);
      var list := InProblemOrder(subtasks, results);
      assert list[..|list| - 1] == InProblemOrder(subtasks[..n], results);
      assert subtasks[n] in subtasks;
    }
  }

  /** The times of all cases of all subtasks. */
  function TimesOf(subtasks: seq<Subtask>, verdicts: Verdicts): nat {
    if subtasks == [] then 0
    else
      var n := |subtasks| - 1;
      TimesOf(subtasks[..n], verdicts) + TimeOf(subtasks[n], verdicts, |subtasks[n].testCases|)
  }

  lemma {:induction false} ProblemOrderTime(subtasks: seq<Subtask>, verdicts: Verdicts,
                                            percentage: (Subtask, nat) -> int32, results: map<uint32, SubtaskResult>)
    requires CasesFit(subtasks)
    requires forall s :: s in subtasks ==> AllJudged(s, verdicts) && s.id in results
                                           && IsResultOf(s, verdicts, percentage, results[s.id])
    ensures WrapU32(TimeTotal(InProblemOrder(subtasks, results))) == WrapU32(TimesOf(subtasks, verdicts))
  {
    if subtasks != [] {
      var n := |subtasks| - 1;
      var s := subtasks[n];
      ProblemOrderTime(subtasks[..n], verdicts, percentage, results);
      OneMoreTime(InProblemOrder(subtasks[..n], results), results[s.id]);
      assert s in subtasks && results[s.id].totalTime == WrapU32(TimeOf(s, verdicts, |s.testCases|));
      WrapBoth(TimeTotal(InProblemOrder(subtasks[..n], results)), TimesOf(subtasks[..n], verdicts),
               TimeOf(s, verdicts, |s.testCases|));
    }
  }

  lemma OneMoreTime(list: seq<SubtaskResult>, r: SubtaskResult)
    ensures TimeTotal(list + [r]) == TimeTotal(list) + r.totalTime
  {
    assert (list + [r])[..|list|] == list;
  }

  lemma WrapBoth(a: int, b: int, c: int)
    requires WrapU32(a) == WrapU32(b)
    ensures WrapU32(a + WrapU32(c)) == WrapU32(b + c)
  {
    WrapAdd(a, WrapU32(c));
    WrapAdd(b, WrapU32(c));
    WrapAdd(c, b);
  }

  lemma ProblemOrderIsListing(subtasks: seq<Subtask>, results: map<uint32, SubtaskResult>)
    requires DistinctIds(subtasks) && results.Keys == ToSet(Ids(subtasks))
    requires forall s :: s in subtasks ==> s.id in results
    ensures IsListing(results, InProblemOrder(subtasks, results))
  {
    ProblemOrderLists(subtasks, results);
    assert ListedBy(results, InProblemOrder(subtasks, results), Ids(subtasks));
  }

  lemma ProblemOrderAccepted(subtasks: seq<Subtask>, verdicts: Verdicts, percentage: (Subtask, nat) -> int32,
                             results: map<uint32, SubtaskResult>)
    requires CasesFit(subtasks) && CompleteResults(subtasks, verdicts, percentage, results)
    ensures NoneRejects(InProblemOrder(subtasks, results))
            <==> forall i :: 0 <= i < |subtasks| ==> FullyAccepted(subtasks[i], verdicts)
  {
    ProblemOrderLists(subtasks, results);
    forall i | 0 <= i < |subtasks|
      ensures Rejects(InProblemOrder(subtasks, results)[i]) <==> !FullyAccepted(subtasks[i], verdicts)
    {
      assert subtasks[i] in subtasks;
      AcceptedIff(subtasks[i], verdicts, |subtasks[i].testCases|);
    }
  }

  /**
   * The verdict on a completely judged problem, however the map of results is enumerated: the score is the sum of the
   * subtask scores, the time that of all cases with wrap-around, and the submission is accepted exactly
   * if every case of every subtask is.
   */
  lemma CompleteVerdict(subtasks: seq<Subtask>, verdicts: Verdicts, percentage: (Subtask, nat) -> int32,
                        results: map<uint32, SubtaskResult>, list: seq<SubtaskResult>)
    requires Judgeable(subtasks) && CompleteResults(subtasks, verdicts, percentage, results)
    requires IsListing(results, list)
    ensures ScoreTotal(list) == ScoresOf(subtasks, verdicts, percentage)
    ensures WrapU32(TimeTotal(list)) == WrapU32(TimesOf(subtasks, verdicts))
    ensures NoneRejects(list) <==> forall i :: 0 <= i < |subtasks| ==> FullyAccepted(subtasks[i], verdicts)
  {
    ProblemOrderIsListing(subtasks, results);
    ProblemOrderTotal(subtasks, verdicts, percentage, results);
    ProblemOrderTime(subtasks, verdicts, percentage, results);
    ProblemOrderAccepted(subtasks, verdicts, percentage, results);
    CompleteIsLabelled(subtasks, verdicts, percentage, results);
    ListingOrderIsInvisible(results, list, InProblemOrder(subtasks, results));
  }

  /** An admitted problem judged without internal errors has complete results. */
  lemma AdmittedIsComplete(subtasks: seq<Subtask>, verdicts: Verdicts, percentage: (Subtask, nat) -> int32,
                           order: seq<uint32>, results: map<uint32, SubtaskResult>)
    requires Judgeable(subtasks) && Acyclic(Ids(subtasks), DependencyEdges(subtasks))
    requires forall s :: s in subtasks ==> NoInternalFailure(s, verdicts)
    requires JudgingOrder(subtasks, verdicts, order) && ResultsAre(subtasks, verdicts, percentage, order, results)
    ensures CompleteResults(subtasks, verdicts, percentage, results)
  {
    AdmittedFullyJudged(subtasks, verdicts, percentage, order, results);
    forall s | s in subtasks
      ensures AllJudged(s, verdicts)
    {
      AllJudgedIff(s, verdicts);
    }
  }

  function FullScore(subtasks: seq<Subtask>): int {
    if subtasks == [] then 0 else FullScore(subtasks[..|subtasks| - 1]) + subtasks[|subtasks| - 1].score
  }

  lemma ScoreWithin(s: Subtask, passed: nat, percentage: (Subtask, nat) -> int32)
    requires passed <= |s.testCases| < 0x8000_0000 && s.score >= 0 && s.scorePolicy != PCT
    ensures 0 <= ScoreOf(s, passed, true, percentage) <= s.score
  {
    if passed > 0 {
      SumFits(s, passed);
      TruncDivFits(s.score, |s.testCases|);
    }
  }

  /** Without percentages and negative scores, the total lies within the full score. */
  lemma {:induction false} TotalIsWithinFullScore(subtasks: seq<Subtask>, verdicts: Verdicts,
                                                  percentage: (Subtask, nat) -> int32)
    requires CasesFit(subtasks) && forall s :: s in subtasks ==> s.score >= 0 && s.scorePolicy != PCT
    ensures 0 <= ScoresOf(subtasks, verdicts, percentage) <= FullScore(subtasks)
  {
    if subtasks != [] {
      var n := |subtasks| - 1;
      TotalIsWithinFullScore(subtasks[..n], verdicts, percentage);
      ScoreWithin(subtasks[n], PassedCount(subtasks[n], verdicts, |subtasks[n].testCases|), percentage);
    }
  }

  /** Hence the total score wraps around only if the full score does. */
  lemma TotalDoesNotWrap(subtasks: seq<Subtask>, verdicts: Verdicts, percentage: (Subtask, nat) -> int32)
    requires CasesFit(subtasks) && forall s :: s in subtasks ==> s.score >= 0 && s.scorePolicy != PCT
    requires FullScore(subtasks) < 0x8000_0000
    ensures Wrap32(ScoresOf(subtasks, verdicts, percentage)) == ScoresOf(subtasks, verdicts, percentage)
  {
    TotalIsWithinFullScore(subtasks, verdicts, percentage);
  }

  // ----- what acceptance means for any run

  /** Every case of s that was judged was accepted. */
  ghost predicate JudgedAreAccepted(s: Subtask, verdicts: Verdicts) {
    forall i :: 0 <= i < Clean(s, verdicts, 0) ==> PassedCase(s, verdicts, i)
  }

  lemma ResultRejectsIff(s: Subtask, verdicts: Verdicts, percentage: (Subtask, nat) -> int32, judged: bool,
                         r: SubtaskResult)
    requires |s.testCases| < 0x8000_0000 && ResultFor(s, verdicts, percentage, judged, r)
    ensures r.id == s.id && (Rejects(r) <==> judged && !JudgedAreAccepted(s, verdicts))
  {
    AcceptedIff(s, verdicts, Clean(s, verdicts, 0));
  }

  lemma ResultsAreLabelled(subtasks: seq<Subtask>, verdicts: Verdicts, percentage: (Subtask, nat) -> int32,
                           order: seq<uint32>, results: map<uint32, SubtaskResult>)
    requires Regular(subtasks) && ResultsAre(subtasks, verdicts, percentage, order, results)
    ensures Labelled(results)
  {
    forall id | id in results
      ensures results[id].id == id
    {
      FindListed(subtasks, id);
      var s := Find(subtasks, id);
      ResultRejectsIff(s, verdicts, percentage, id in order, results[id]);
    }
  }

  /** A run that does not crash is accepted exactly if every judged case of every judged subtask is. */
  lemma AcceptanceIff(subtasks: seq<Subtask>, verdicts: Verdicts, percentage: (Subtask, nat) -> int32,
                      order: seq<uint32>, results: map<uint32, SubtaskResult>, list: seq<SubtaskResult>)
    requires Regular(subtasks) && ResultsAre(subtasks, verdicts, percentage, order, results)
    requires IsListing(results, list)
    ensures NoneRejects(list) <==> forall s :: s in subtasks && s.id in order ==> JudgedAreAccepted(s, verdicts)
  {
    ResultsAreLabelled(subtasks, verdicts, percentage, order, results);
    ListingHolds(results, list);
    forall s | s in subtasks
      ensures results[s.id] in list
      ensures Rejects(results[s.id]) <==> s.id in order && !JudgedAreAccepted(s, verdicts)
    {
      ResultRejectsIff(s, verdicts, percentage, s.id in order, results[s.id]);
    }
    forall r | r in list
      ensures exists s :: s in subtasks && r == results[s.id]
    {
      FindListed(subtasks, r.id);
    }
  }

  /** The run that loses its error ends as accepted, though its first subtask failed internally. */
  lemma LostErrorIsAccepted(subtasks: seq<Subtask>, verdicts: Verdicts, percentage: (Subtask, nat) -> int32,
                            order: seq<uint32>, results: map<uint32, SubtaskResult>, list: seq<SubtaskResult>,
                            t: TestCase)
    requires |subtasks| == 2 && AreIndependent(subtasks[0], subtasks[1], t) && JudgingOrder(subtasks, verdicts, order)
    requires verdicts(1, 0) == InternalFailure && verdicts(2, 0) == Judged(Accepted, 0, 0)
    requires Regular(subtasks) && ResultsAre(subtasks, verdicts, percentage, order, results)
    requires IsListing(results, list)
    ensures SomeFailure(subtasks, verdicts, order) && !ErrAfter(subtasks, verdicts, order) && NoneRejects(list)
  {
    ErrorIsLost(subtasks, verdicts, order, t);
    IndependentAccepted(subtasks, verdicts, t);
    AcceptanceIff(subtasks, verdicts, percentage, order, results, list);
  }

  lemma IndependentAccepted(subtasks: seq<Subtask>, verdicts: Verdicts, t: TestCase)
    requires |subtasks| == 2 && AreIndependent(subtasks[0], subtasks[1], t)
    requires verdicts(1, 0) == InternalFailure && verdicts(2, 0) == Judged(Accepted, 0, 0)
    ensures forall s :: s in subtasks ==> JudgedAreAccepted(s, verdicts)
  {
    IndependentCases(subtasks[0], subtasks[1], verdicts, t);
  }

  lemma IndependentCases(s1: Subtask, s2: Subtask, verdicts: Verdicts, t: TestCase)
    requires AreIndependent(s1, s2, t)
    requires verdicts(1, 0) == InternalFailure && verdicts(2, 0) == Judged(Accepted, 0, 0)
    ensures JudgedAreAccepted(s1, verdicts) && JudgedAreAccepted(s2, verdicts)
  {
  }
}
