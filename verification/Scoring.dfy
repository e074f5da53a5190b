/** What judging one subtask yields (worker/worker.go, the callback of judgeOnDAG), and the arithmetic of its score. */
module Scoring {
  import opened Digraph
  import opened Problems

  /** What one call of Judge brings: an internal failure, or a verdict with a time and the size of the output. */
  datatype CaseVerdict = InternalFailure | Judged(conclusion: Conclusion, totalTime: uint32, outputSize: nat)

  /** The verdicts, by subtask id and case number; every case is judged at most once. */
  type Verdicts = (uint32, nat) -> CaseVerdict

  datatype CaseResult = CaseResult(id: uint32, score: int32, conclusion: Conclusion, totalTime: uint32,
                                   outputSize: nat)

  datatype SubtaskResult = SubtaskResult(id: uint32, isRun: bool, score: int32, scorePolicy: ScorePolicy,
                                         conclusion: Conclusion, totalTime: uint32, caseResults: seq<CaseResult>)

  /** An output that is too long for the record and goes to the uploader. */
  datatype Output = Output(subtask: uint32, testCase: nat)

  function Wrap32(x: int): int32 {
    (x + 0x8000_0000) % 0x1_0000_0000 - 0x8000_0000
  }

  function WrapU32(x: int): uint32 {
    x % 0x1_0000_0000
  }

  /** Integer division that truncates toward zero. */
  function TruncDiv(a: int, n: int): int
    requires n > 0
  {
    if a >= 0 then a / n else -(-a / n)
  }

  /** What a passed case of the subtask is worth. */
  function Share(s: Subtask): int32
    requires 0 < |s.testCases| < 0x8000_0000
  {
    TruncDivFits(s.score, |s.testCases|);
    TruncDiv(s.score, |s.testCases|)
  }

  lemma TruncDivFits(a: int, n: int)
    requires n > 0
    ensures a >= 0 ==> 0 <= TruncDiv(a, n) <= a && n * TruncDiv(a, n) <= a < n * TruncDiv(a, n) + n
    ensures a <= 0 ==> a <= TruncDiv(a, n) <= 0 && n * TruncDiv(a, n) - n < a <= n * TruncDiv(a, n)
  {
    var q := TruncDiv(a, n);
    if a >= 0 {
      DivBounds(a, n);
    } else {
      DivBounds(-a, n);
      assert n * q == -(n * -q);
    }
  }

  lemma DivBounds(m: nat, n: nat)
    requires n > 0
    ensures 0 <= m / n <= m && n * (m / n) <= m < n * (m / n) + n
  {
    DivMod(m, n);
    var q := m / n;
    ProductNonNegative(n - 1, q);
    assert n * q == (n - 1) * q + q;
  }

  lemma DivMod(m: nat, n: nat)
    requires n > 0
    ensures m == n * (m / n) + m % n && 0 <= m % n < n && m / n >= 0
  {
  }

  lemma ProductNonNegative(a: nat, b: nat)
    ensures a * b >= 0
  {
  }

  lemma WrapAdd(a: int, b: int)
    ensures WrapU32(WrapU32(a) + b) == WrapU32(a + b)
  {
  }

  function PassedCase(s: Subtask, verdicts: Verdicts, i: nat): bool {
    var v := verdicts(s.id, i);
    v.Judged? && v.conclusion == Accepted
  }

  /** How many of the first k cases are accepted. */
  function PassedCount(s: Subtask, verdicts: Verdicts, k: nat): (n: nat)
    ensures n <= k
  {
    if k == 0 then 0 else PassedCount(s, verdicts, k - 1) + if PassedCase(s, verdicts, k - 1) then 1 else 0
  }

  /** How many cases are judged before an internal failure ends the subtask. */
  function Clean(s: Subtask, verdicts: Verdicts, k: nat): (n: nat)
    requires k <= |s.testCases|
    ensures k <= n <= |s.testCases|
    ensures forall i :: k <= i < n ==> verdicts(s.id, i).Judged?
    ensures n < |s.testCases| ==> verdicts(s.id, n).InternalFailure?
    decreases |s.testCases| - k
  {
    if k == |s.testCases| || verdicts(s.id, k).InternalFailure? then k else Clean(s, verdicts, k + 1)
  }

  /** The answer of the callback: whether all cases were judged. */
  function AllJudged(s: Subtask, verdicts: Verdicts): bool {
    Clean(s, verdicts, 0) == |s.testCases|
  }

  /** The score of a subtask by its policy; percentages come from outside. */
  function ScoreOf(s: Subtask, passed: nat, complete: bool, percentage: (Subtask, nat) -> int32): int32
    requires |s.testCases| < 0x8000_0000 && passed <= |s.testCases|
  {
    match s.scorePolicy
    case SUM => if passed == 0 then 0 else (SumFits(s, passed); passed * Share(s))
    case MIN => if passed > 0 && Share(s) < 0 then Share(s) else 0
    case PCT => if complete then percentage(s, passed) else 0
  }

  /** The same for a subtask that starts from the score of an earlier run of it. */
  function ScoreFrom(s: Subtask, start: int32, passed: nat, complete: bool, percentage: (Subtask, nat) -> int32): int32
    requires |s.testCases| < 0x8000_0000 && passed <= |s.testCases|
  {
    match s.scorePolicy
    case SUM => if passed == 0 then start else Wrap32(start + passed * Share(s))
    case MIN => if passed > 0 && Share(s) < start then Share(s) else start
    case PCT => if complete then percentage(s, passed) else start
  }

  lemma ScoreFromZero(s: Subtask, passed: nat, complete: bool, percentage: (Subtask, nat) -> int32)
    requires |s.testCases| < 0x8000_0000 && passed <= |s.testCases|
    ensures ScoreFrom(s, 0, passed, complete, percentage) == ScoreOf(s, passed, complete, percentage)
  {
    if passed > 0 {
      SumFits(s, passed);
      WrapFits(passed * Share(s));
    }
  }

  lemma WrapFits(x: int)
    requires -0x8000_0000 <= x < 0x8000_0000
    ensures Wrap32(x) == x
  {
  }

  lemma WrapScore(a: int, b: int)
    ensures Wrap32(Wrap32(a) + b) == Wrap32(a + b)
  {
  }

  lemma PartOfWhole(part: nat, whole: nat, share: nat)
    requires part <= whole
    ensures 0 <= part * share <= whole * share
  {
    ProductNonNegative(part, share);
    ProductNonNegative(whole - part, share);
    assert (whole - part) * share == whole * share - part * share;
  }

  lemma SumFits(s: Subtask, passed: nat)
    requires 0 < |s.testCases| < 0x8000_0000 && passed <= |s.testCases|
    ensures s.score >= 0 ==> 0 <= passed * Share(s) <= s.score
    ensures s.score <= 0 ==> s.score <= passed * Share(s) <= 0
  {
    var n: int, share: int := |s.testCases|, Share(s);
    TruncDivFits(s.score, n);
    if share >= 0 {
      PartOfWhole(passed, n, share);
    } else {
      PartOfWhole(passed, n, -share);
      Negated(passed, share);
      Negated(n, share);
    }
  }

  lemma Negated(a: int, b: int)
    ensures a * -b == -(a * b)
  {
  }

  /** The conclusion that the last case other than an accepted one leaves. */
  function ConclusionOf(s: Subtask, verdicts: Verdicts, k: nat): Conclusion {
    if k == 0 then Accepted
    else
      var v := verdicts(s.id, k - 1);
      if v.Judged? && v.conclusion != Accepted then v.conclusion else ConclusionOf(s, verdicts, k - 1)
  }

  function TimeOf(s: Subtask, verdicts: Verdicts, k: nat): nat {
    if k == 0 then 0
    else TimeOf(s, verdicts, k - 1) + if verdicts(s.id, k - 1).Judged? then verdicts(s.id, k - 1).totalTime else 0
  }

  /** The outputs of the first k cases that exceed the limit. */
  function OutputsOf(s: Subtask, verdicts: Verdicts, limit: nat, k: nat): seq<Output> {
    if k == 0 then []
    else
      var v := verdicts(s.id, k - 1);
      OutputsOf(s, verdicts, limit, k - 1)
      + if v.Judged? && v.outputSize > limit then [Output(s.id, k - 1)] else []
  }

  /** One entry per judged case, then one for the case that failed internally, if any. */
  predicate CasesMatch(s: Subtask, verdicts: Verdicts, results: seq<CaseResult>)
    requires |s.testCases| < 0x8000_0000
  {
    var k := Clean(s, verdicts, 0);
    && |results| == (if k < |s.testCases| then k + 1 else k)
    && (forall i :: 0 <= i < k ==> CaseMatches(s, verdicts(s.id, i), i, results[i]))
    && (k < |s.testCases| ==> results[k] == CaseResult(k, 0, InternalError, 0, 0))
  }

  predicate CaseMatches(s: Subtask, v: CaseVerdict, i: nat, r: CaseResult)
    requires i < |s.testCases| < 0x8000_0000
  {
    v.Judged? && r.id == i && r.conclusion == v.conclusion && r.totalTime == v.totalTime
    && r.outputSize == v.outputSize && r.score == if v.conclusion == Accepted then Share(s) else 0
  }

  /** The result that a subtask must have after its run. */
  predicate IsResultOf(s: Subtask, verdicts: Verdicts, percentage: (Subtask, nat) -> int32, r: SubtaskResult)
    requires |s.testCases| < 0x8000_0000
  {
    var k := Clean(s, verdicts, 0);
    && r.id == s.id && r.isRun && r.scorePolicy == s.scorePolicy
    && r.score == ScoreOf(s, PassedCount(s, verdicts, k), AllJudged(s, verdicts), percentage)
    && r.conclusion == ConclusionOf(s, verdicts, k)
    && r.totalTime == WrapU32(TimeOf(s, verdicts, k))
    && CasesMatch(s, verdicts, r.caseResults)
  }

  /** The result that a subtask must have after a run of it that starts from this result. */
  predicate IsResultAfter(s: Subtask, verdicts: Verdicts, percentage: (Subtask, nat) -> int32, start: SubtaskResult,
                          r: SubtaskResult)
    requires |s.testCases| < 0x8000_0000
  {
    var k := Clean(s, verdicts, 0);
    && r.id == s.id && r.isRun && r.scorePolicy == s.scorePolicy
    && r.score == ScoreFrom(s, start.score, PassedCount(s, verdicts, k), AllJudged(s, verdicts), percentage)
    && r.conclusion == ConclusionOf(s, verdicts, k)
    && r.totalTime == WrapU32(start.totalTime + TimeOf(s, verdicts, k))
    && CasesMatch(s, verdicts, r.caseResults)
  }

  lemma FirstResult(s: Subtask, verdicts: Verdicts, percentage: (Subtask, nat) -> int32, start: SubtaskResult,
                    r: SubtaskResult)
    requires |s.testCases| < 0x8000_0000 && start.score == 0 && start.totalTime == 0
    ensures IsResultAfter(s, verdicts, percentage, start, r) <==> IsResultOf(s, verdicts, percentage, r)
  {
    ScoreFromZero(s, PassedCount(s, verdicts, Clean(s, verdicts, 0)), AllJudged(s, verdicts), percentage);
  }

  /** The score after one more case, which is worth share if it was accepted. */
  function Added(policy: ScorePolicy, score: int32, accepted: bool, share: int32): int32 {
    if !accepted then score
    else match policy
      case SUM => Wrap32(score + share)
      case MIN => if score > share then share else score
      case PCT => score
  }

  lemma AddedScore(s: Subtask, start: int32, passed: nat, accepted: bool, percentage: (Subtask, nat) -> int32)
    requires passed < |s.testCases| < 0x8000_0000
    ensures Added(s.scorePolicy, ScoreFrom(s, start, passed, false, percentage), accepted, Share(s))
         == ScoreFrom(s, start, if accepted then passed + 1 else passed, false, percentage)
  {
    if accepted && s.scorePolicy == SUM {
      SumAdds(start, passed, Share(s));
    }
  }

  lemma SumAdds(start: int32, passed: nat, share: int)
    ensures Wrap32(Wrap32(start + passed * share) + share) == Wrap32(start + (passed + 1) * share)
    ensures passed == 0 ==> Wrap32(start + passed * share) == start
  {
    OneMoreShare(passed, share);
    WrapScore(start + passed * share, share);
    WrapFits(start);
  }

  lemma OneMoreShare(passed: int, share: int)
    ensures (passed + 1) * share == passed * share + share
  {
  }

  /** The result after the first i cases, all of them judged. */
  ghost predicate Recorded(s: Subtask, verdicts: Verdicts, percentage: (Subtask, nat) -> int32, start: SubtaskResult,
                           i: nat, r: SubtaskResult)
    requires i <= |s.testCases| < 0x8000_0000
  {
    && r.id == s.id && r.scorePolicy == s.scorePolicy && r.isRun
    && r.score == ScoreFrom(s, start.score, PassedCount(s, verdicts, i), false, percentage)
    && r.conclusion == ConclusionOf(s, verdicts, i)
    && r.totalTime == WrapU32(start.totalTime + TimeOf(s, verdicts, i))
    && |r.caseResults| == i
    && forall j :: 0 <= j < i ==> CaseMatches(s, verdicts(s.id, j), j, r.caseResults[j])
  }

  lemma RecordedStarts(s: Subtask, verdicts: Verdicts, percentage: (Subtask, nat) -> int32, start: SubtaskResult)
    requires |s.testCases| < 0x8000_0000 && start.id == s.id && start.scorePolicy == s.scorePolicy
    ensures Recorded(s, verdicts, percentage, start, 0,
                     start.(isRun := true, conclusion := Accepted, caseResults := []))
  {
  }

  lemma RecordedStep(s: Subtask, verdicts: Verdicts, percentage: (Subtask, nat) -> int32, start: SubtaskResult,
                     i: nat, r: SubtaskResult, r': SubtaskResult)
    requires i < |s.testCases| < 0x8000_0000 && Recorded(s, verdicts, percentage, start, i, r)
    requires var v := verdicts(s.id, i);
             && v.Judged?
             && var accepted, share := v.conclusion == Accepted, Share(s);
             r' == SubtaskResult(r.id, r.isRun, Added(s.scorePolicy, r.score, accepted, share), r.scorePolicy,
                                 if accepted then r.conclusion else v.conclusion, WrapU32(r.totalTime + v.totalTime),
                                 r.caseResults + [CaseResult(i, if accepted then share else 0, v.conclusion,
                                                             v.totalTime, v.outputSize)])
    ensures Recorded(s, verdicts, percentage, start, i + 1, r')
  {
    var v := verdicts(s.id, i);
    AddedScore(s, start.score, PassedCount(s, verdicts, i), v.conclusion == Accepted, percentage);
    WrapAdd(start.totalTime + TimeOf(s, verdicts, i), v.totalTime);
  }

  /** An internal failure at case i ends the subtask; the score stays without the percentage. */
  lemma RecordedFails(s: Subtask, verdicts: Verdicts, percentage: (Subtask, nat) -> int32, start: SubtaskResult,
                      i: nat, r: SubtaskResult)
    requires i < |s.testCases| < 0x8000_0000 && Recorded(s, verdicts, percentage, start, i, r)
    requires verdicts(s.id, i).InternalFailure?
    ensures Clean(s, verdicts, 0) == i
    ensures IsResultAfter(s, verdicts, percentage, start, r.(caseResults := r.caseResults
                                                                  + [CaseResult(i, 0, InternalError, 0, 0)]))
  {
    RecordedAreClean(s, verdicts, percentage, start, i, r);
  }

  lemma RecordedEnds(s: Subtask, verdicts: Verdicts, percentage: (Subtask, nat) -> int32, start: SubtaskResult,
                     r: SubtaskResult)
    requires |s.testCases| < 0x8000_0000 && Recorded(s, verdicts, percentage, start, |s.testCases|, r)
    ensures Clean(s, verdicts, 0) == |s.testCases|
    ensures var passed := PassedCount(s, verdicts, |s.testCases|);
            IsResultAfter(s, verdicts, percentage, start,
                          r.(score := if s.scorePolicy == PCT then percentage(s, passed) else r.score))
  {
    RecordedAreClean(s, verdicts, percentage, start, |s.testCases|, r);
  }

  lemma RecordedAreClean(s: Subtask, verdicts: Verdicts, percentage: (Subtask, nat) -> int32, start: SubtaskResult,
                         i: nat, r: SubtaskResult)
    requires i <= |s.testCases| < 0x8000_0000 && Recorded(s, verdicts, percentage, start, i, r)
    ensures Clean(s, verdicts, 0) == Clean(s, verdicts, i)
  {
  }

  /** Enters the verdict on case i into the record. */
  method RecordCase(s: Subtask, verdicts: Verdicts, percentage: (Subtask, nat) -> int32, start: SubtaskResult, i: nat,
                    before: SubtaskResult, passCases: nat) returns (r: SubtaskResult, passed: nat)
    requires i < |s.testCases| < 0x8000_0000 && Recorded(s, verdicts, percentage, start, i, before)
    requires verdicts(s.id, i).Judged? && passCases == PassedCount(s, verdicts, i)
    ensures Recorded(s, verdicts, percentage, start, i + 1, r) && passed == PassedCount(s, verdicts, i + 1)
  {
    var v := verdicts(s.id, i);
    var caseScore: int32 := 0;
    r, passed := before.(totalTime := WrapU32(before.totalTime + v.totalTime)), passCases;
    if v.conclusion == Accepted {
      passed := passed + 1;
      caseScore := Share(s);
      r := r.(score := Added(s.scorePolicy, r.score, true, caseScore));
    } else {
      r := r.(conclusion := v.conclusion);
    }
    r := r.(caseResults := r.caseResults + [CaseResult(i, caseScore, v.conclusion, v.totalTime, v.outputSize)]);
    RecordedStep(s, verdicts, percentage, start, i, before, r);
  }

  /** Runs the cases of one subtask until an internal failure; err is the error of the last Judge call, if any. */
  method JudgeSubtask(s: Subtask, initial: SubtaskResult, verdicts: Verdicts, limit: nat,
                      percentage: (Subtask, nat) -> int32, errBefore: bool)
    returns (r: SubtaskResult, outputs: seq<Output>, pass: bool, err: bool)
    requires |s.testCases| < 0x8000_0000
    requires initial.id == s.id && initial.scorePolicy == s.scorePolicy
    ensures IsResultAfter(s, verdicts, percentage, initial, r)
    ensures pass == AllJudged(s, verdicts)
    ensures outputs == OutputsOf(s, verdicts, limit, Clean(s, verdicts, 0))
    ensures err == if s.testCases == [] then errBefore else !AllJudged(s, verdicts)
  {
    err := errBefore;
    r := initial.(isRun := true, conclusion := Accepted, caseResults := []);
    outputs := [];
    RecordedStarts(s, verdicts, percentage, initial);
    var passCases := 0;
    for i := 0 to |s.testCases|
      invariant passCases == PassedCount(s, verdicts, i) && Recorded(s, verdicts, percentage, initial, i, r)
      invariant outputs == OutputsOf(s, verdicts, limit, i)
      invariant err == (i == 0 && errBefore)
    {
      var v := verdicts(s.id, i);
      if v.InternalFailure? {
        RecordedFails(s, verdicts, percentage, initial, i, r);
        r := r.(caseResults := r.caseResults + [CaseResult(i, 0, InternalError, 0, 0)]);
        return r, outputs, false, true;
      }
      err := false;
      if v.outputSize > limit {
        outputs := outputs + [Output(s.id, i)];
      }
      r, passCases := RecordCase(s, verdicts, percentage, initial, i, r, passCases);
    }
    RecordedEnds(s, verdicts, percentage, initial, r);
    if s.scorePolicy == PCT {
      r := r.(score := percentage(s, passCases));
    }
    pass := true;
  }
}
