/** The score of a subtask against what the score policies promise (proto/model.proto), case by case. */
module ScoreTheory {
  import opened Problems
  import opened Scoring
  import opened Seqs

  /** The sum of the case scores: what policy SUM promises. */
  ghost function SumOf(results: seq<CaseResult>): int {
    if results == [] then 0 else SumOf(results[..|results| - 1]) + results[|results| - 1].score
  }

  /** The least of the case scores: what policy MIN promises. */
  ghost predicate IsLeast(m: int, results: seq<CaseResult>) {
    && (exists i :: 0 <= i < |results| && results[i].score == m)
    && (forall i :: 0 <= i < |results| ==> m <= results[i].score)
  }

  lemma SumOfOneMore(results: seq<CaseResult>, k: nat)
    requires k < |results|
    ensures SumOf(results[..k + 1]) == SumOf(results[..k]) + results[k].score
  {
    assert results[..k + 1][..k] == results[..k];
  }

  lemma {:induction false} SumOfPassed(s: Subtask, verdicts: Verdicts, results: seq<CaseResult>, k: nat)
    requires 0 < |s.testCases| < 0x8000_0000 && k <= |results|
    requires forall i :: 0 <= i < k ==> results[i].score == if PassedCase(s, verdicts, i) then Share(s) else 0
    ensures SumOf(results[..k]) == PassedCount(s, verdicts, k) * Share(s)
  {
    if k > 0 {
      SumOfPassed(s, verdicts, results, k - 1);
      SumOfOneMore(results, k - 1);
      OneMoreShare(PassedCount(s, verdicts, k - 1), Share(s));
    }
  }

  lemma CaseScores(s: Subtask, verdicts: Verdicts, results: seq<CaseResult>)
    requires 0 < |s.testCases| < 0x8000_0000 && CasesMatch(s, verdicts, results)
    ensures forall i :: 0 <= i < |results|
                        ==> results[i].score == if PassedCase(s, verdicts, i) then Share(s) else 0
  {
  }

  lemma SumOfResult(s: Subtask, verdicts: Verdicts, results: seq<CaseResult>)
    requires 0 < |s.testCases| < 0x8000_0000 && CasesMatch(s, verdicts, results)
    ensures SumOf(results) == PassedCount(s, verdicts, Clean(s, verdicts, 0)) * Share(s)
  {
    var n := |results|;
    CaseScores(s, verdicts, results);
    SumOfPassed(s, verdicts, results, n);
    TakeAll(results);
    if Clean(s, verdicts, 0) < n {
      assert PassedCount(s, verdicts, n) == PassedCount(s, verdicts, n - 1);
    }
  }

  /** Policy SUM keeps its promise for every score: no wrap-around can occur. */
  lemma SumMeetsDocumentation(s: Subtask, verdicts: Verdicts, percentage: (Subtask, nat) -> int32, r: SubtaskResult)
    requires 0 < |s.testCases| < 0x8000_0000 && s.scorePolicy == SUM
    requires IsResultOf(s, verdicts, percentage, r)
    ensures r.score == SumOf(r.caseResults)
  {
    SumOfResult(s, verdicts, r.caseResults);
  }

  /** Each passed case is worth the rounded-down share, and the full score is reached only if rounding loses nothing. */
  lemma SumScore(s: Subtask, verdicts: Verdicts, percentage: (Subtask, nat) -> int32, r: SubtaskResult)
    requires 0 < |s.testCases| < 0x8000_0000 && s.scorePolicy == SUM && s.score >= 0
    requires IsResultOf(s, verdicts, percentage, r)
    ensures r.score == PassedCount(s, verdicts, Clean(s, verdicts, 0)) * (s.score / |s.testCases|)
    ensures 0 <= r.score <= s.score
    ensures PassedCount(s, verdicts, Clean(s, verdicts, 0)) == |s.testCases| ==> s.score - |s.testCases| < r.score
    ensures r.score == s.score
            <==> s.score == 0
                 || (PassedCount(s, verdicts, Clean(s, verdicts, 0)) == |s.testCases| && s.score % |s.testCases| == 0)
  {
    var n: int, share: int, passed: int := |s.testCases|, Share(s), PassedCount(s, verdicts, Clean(s, verdicts, 0));
    SumFits(s, passed);
    TruncDivFits(s.score, n);
    DivMod(s.score, n);
    if s.score > 0 && passed < n {
      LosesAShare(passed, n, share, s.score);
    }
  }

  lemma LosesAShare(passed: int, n: int, share: int, score: int)
    requires 0 <= passed < n && 0 <= share && n * share <= score && score > 0
    ensures passed * share < score
  {
  }

  lemma {:induction false} SomePassed(s: Subtask, verdicts: Verdicts, k: nat)
    ensures PassedCount(s, verdicts, k) > 0 <==> exists i :: 0 <= i < k && PassedCase(s, verdicts, i)
    ensures PassedCount(s, verdicts, k) < k <==> exists i :: 0 <= i < k && !PassedCase(s, verdicts, i)
  {
    if k > 0 {
      SomePassed(s, verdicts, k - 1);
      assert PassedCase(s, verdicts, k - 1) || !PassedCase(s, verdicts, k - 1);
    }
  }

  /** The case scores are Share for a passed case and zero for any other. */
  lemma LeastOfResult(s: Subtask, verdicts: Verdicts, results: seq<CaseResult>) returns (m: int)
    requires 0 < |s.testCases| < 0x8000_0000 && CasesMatch(s, verdicts, results)
    ensures IsLeast(m, results)
    ensures var passed := PassedCount(s, verdicts, Clean(s, verdicts, 0));
            m == if passed == |s.testCases| || (passed > 0 && Share(s) < 0) then Share(s) else 0
  {
    var n, k, share := |s.testCases|, Clean(s, verdicts, 0), Share(s);
    SomePassed(s, verdicts, k);
    CaseScores(s, verdicts, results);
    var passed := PassedCount(s, verdicts, k);
    if passed == n || (passed > 0 && share < 0) {
      m := share;
      var i: nat :| i < k && PassedCase(s, verdicts, i);
      assert results[i].score == m;
    } else {
      m := 0;
      if k < n {
        assert results[k].score == m;
      } else {
        var i: nat :| i < k && !PassedCase(s, verdicts, i);
        assert results[i].score == m;
      }
    }
  }

  /** Policy MIN starts from zero: the score is the least case score cut off at zero, so a positive one is lost. */
  lemma MinScore(s: Subtask, verdicts: Verdicts, percentage: (Subtask, nat) -> int32, r: SubtaskResult, m: int)
    requires 0 < |s.testCases| < 0x8000_0000 && s.scorePolicy == MIN
    requires IsResultOf(s, verdicts, percentage, r) && IsLeast(m, r.caseResults)
    ensures r.score == if m < 0 then m else 0
  {
    var least := LeastOfResult(s, verdicts, r.caseResults);
    assert m == least;
  }

  lemma ShareIsPositiveIff(s: Subtask)
    requires 0 < |s.testCases| < 0x8000_0000
    ensures Share(s) > 0 <==> s.score >= |s.testCases|
  {
    TruncDivFits(s.score, |s.testCases|);
  }

  lemma FailedCaseExistsIff(s: Subtask, verdicts: Verdicts)
    ensures PassedCount(s, verdicts, Clean(s, verdicts, 0)) < |s.testCases|
            <==> exists i :: 0 <= i < |s.testCases| && !PassedCase(s, verdicts, i)
  {
    var k := Clean(s, verdicts, 0);
    SomePassed(s, verdicts, k);
    if k < |s.testCases| {
      assert !PassedCase(s, verdicts, k);
    }
  }

  /** Policy MIN keeps its promise exactly unless every case passes and is worth something. */
  lemma MinMeetsDocumentationIff(s: Subtask, verdicts: Verdicts, percentage: (Subtask, nat) -> int32,
                                 r: SubtaskResult)
    requires 0 < |s.testCases| < 0x8000_0000 && s.scorePolicy == MIN
    requires IsResultOf(s, verdicts, percentage, r)
    ensures IsLeast(r.score, r.caseResults)
            <==> s.score < |s.testCases| || exists i :: 0 <= i < |s.testCases| && !PassedCase(s, verdicts, i)
  {
    var m := LeastOfResult(s, verdicts, r.caseResults);
    MinScore(s, verdicts, percentage, r, m);
    FailedCaseExistsIff(s, verdicts);
    ShareIsPositiveIff(s);
  }

  /** One passed case worth 10 points under MIN scores nothing. */
  lemma MinLosesTheScore(verdicts: Verdicts, percentage: (Subtask, nat) -> int32, r: SubtaskResult)
    requires var s := Subtask(1, 10, MIN, [], [TestCase("in", 1, "out", 1)]);
             PassedCase(s, verdicts, 0) && IsResultOf(s, verdicts, percentage, r)
    ensures r.score == 0 && r.caseResults[0].score == 10 && !IsLeast(r.score, r.caseResults)
  {
  }

  /** A subtask counts as accepted exactly when each case that was judged is; an internal failure does not show here. */
  lemma {:induction false} AcceptedIff(s: Subtask, verdicts: Verdicts, k: nat)
    requires k <= Clean(s, verdicts, 0)
    ensures ConclusionOf(s, verdicts, k) == Accepted <==> forall i :: 0 <= i < k ==> PassedCase(s, verdicts, i)
  {
    if k > 0 {
      AcceptedIff(s, verdicts, k - 1);
      CleanJudged(s, verdicts, k - 1);
      assert PassedCase(s, verdicts, k - 1) || !PassedCase(s, verdicts, k - 1);
    }
  }

  lemma CleanJudged(s: Subtask, verdicts: Verdicts, i: nat)
    requires i < Clean(s, verdicts, 0)
    ensures verdicts(s.id, i).Judged?
  {
  }

  // ----- conclusion, time and percentage

  /** Case i is the last of the first k that is not accepted. */
  ghost predicate RejectedLast(s: Subtask, verdicts: Verdicts, k: nat, i: int) {
    0 <= i < k && !PassedCase(s, verdicts, i) && forall j :: i < j < k ==> PassedCase(s, verdicts, j)
  }

  /** The conclusion on judged cases: that of the last one not accepted, or Accepted if there is none. */
  lemma {:induction false} ConclusionIff(s: Subtask, verdicts: Verdicts, k: nat, c: Conclusion)
    requires k <= Clean(s, verdicts, 0)
    ensures c == ConclusionOf(s, verdicts, k)
            <==> if c == Accepted then forall i :: 0 <= i < k ==> PassedCase(s, verdicts, i)
                 else exists i: nat :: RejectedLast(s, verdicts, k, i) && verdicts(s.id, i).conclusion == c
  {
    if k > 0 {
      ConclusionIff(s, verdicts, k - 1, c);
      CleanJudged(s, verdicts, k - 1);
      if PassedCase(s, verdicts, k - 1) {
        assert forall i: nat :: RejectedLast(s, verdicts, k, i) <==> RejectedLast(s, verdicts, k - 1, i);
      } else {
        assert RejectedLast(s, verdicts, k, k - 1);
        assert forall i: nat :: RejectedLast(s, verdicts, k, i) ==> i == k - 1;
      }
    }
  }

  ghost function TimeSum(results: seq<CaseResult>): nat {
    if results == [] then 0 else TimeSum(results[..|results| - 1]) + results[|results| - 1].totalTime
  }

  lemma {:induction false} TimeOfJudged(s: Subtask, verdicts: Verdicts, results: seq<CaseResult>, k: nat)
    requires |s.testCases| < 0x8000_0000 && CasesMatch(s, verdicts, results) && k <= Clean(s, verdicts, 0)
    ensures TimeSum(results[..k]) == TimeOf(s, verdicts, k)
  {
    if k > 0 {
      TimeOfJudged(s, verdicts, results, k - 1);
      assert results[..k][..k - 1] == results[..k - 1];
      assert CaseMatches(s, verdicts(s.id, k - 1), k - 1, results[k - 1]);
    }
  }

  /** The time of a subtask is the sum over its cases, with wrap-around. */
  lemma TimeIsSum(s: Subtask, verdicts: Verdicts, percentage: (Subtask, nat) -> int32, r: SubtaskResult)
    requires |s.testCases| < 0x8000_0000 && IsResultOf(s, verdicts, percentage, r)
    ensures (TimeSum(r.caseResults) - r.totalTime) % 0x1_0000_0000 == 0
  {
    var k := Clean(s, verdicts, 0);
    TimeOfJudged(s, verdicts, r.caseResults, k);
    WrapsAround(TimeOf(s, verdicts, k));
    TakeAll(r.caseResults);
    if k < |s.testCases| {
      assert r.caseResults[..k + 1] == r.caseResults && r.caseResults[..k + 1][..k] == r.caseResults[..k];
    }
  }

  /** Wrapping around changes a number by a multiple of the width. */
  lemma WrapsAround(x: int)
    ensures (x - WrapU32(x)) % 0x1_0000_0000 == 0 && (x - Wrap32(x)) % 0x1_0000_0000 == 0
  {
  }

  ghost function PassedCases(s: Subtask, verdicts: Verdicts, k: nat): set<nat> {
    set i: nat | i < k && PassedCase(s, verdicts, i)
  }

  lemma OneMorePassed(s: Subtask, verdicts: Verdicts, k: nat)
    ensures |PassedCases(s, verdicts, k + 1)|
         == |PassedCases(s, verdicts, k)| + if PassedCase(s, verdicts, k) then 1 else 0
  {
    var before, after := PassedCases(s, verdicts, k), PassedCases(s, verdicts, k + 1);
    assert k !in before;
    if PassedCase(s, verdicts, k) {
      assert after == before + {k};
    } else {
      assert after == before;
    }
  }

  lemma {:induction false} PassedCountIs(s: Subtask, verdicts: Verdicts, k: nat)
    ensures PassedCount(s, verdicts, k) == |PassedCases(s, verdicts, k)|
  {
    if k > 0 {
      PassedCountIs(s, verdicts, k - 1);
      OneMorePassed(s, verdicts, k - 1);
    }
  }

  /** Under PCT the score is the percentage for the number of passed cases, and stays zero after an internal failure. */
  lemma PctScore(s: Subtask, verdicts: Verdicts, percentage: (Subtask, nat) -> int32, r: SubtaskResult)
    requires |s.testCases| < 0x8000_0000 && s.scorePolicy == PCT && IsResultOf(s, verdicts, percentage, r)
    ensures r.score == if exists i :: 0 <= i < |s.testCases| && verdicts(s.id, i).InternalFailure? then 0
                       else percentage(s, |PassedCases(s, verdicts, |s.testCases|)|)
  {
    PassedCountIs(s, verdicts, |s.testCases|);
    var k := Clean(s, verdicts, 0);
    assert k < |s.testCases| ==> verdicts(s.id, k).InternalFailure?;
  }
}
