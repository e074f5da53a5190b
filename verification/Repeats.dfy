/** Problems that repeat a subtask id, which admission accepts (worker/worker.go, judgeOnDAG). */
module Repeats {
  import opened Digraph
  import opened Judging
  import opened Problems
  import opened Scoring
  import opened Seqs
  import opened SubtaskGraph

  /** What one run of the subtask adds to a score under policy SUM. */
  function Gain(s: Subtask, verdicts: Verdicts): int
    requires 0 < |s.testCases| < 0x8000_0000
  {
    PassedCount(s, verdicts, Clean(s, verdicts, 0)) * Share(s)
  }

  lemma GainOnce(s: Subtask, verdicts: Verdicts, percentage: (Subtask, nat) -> int32, start: SubtaskResult,
                 r: SubtaskResult)
    requires 0 < |s.testCases| < 0x8000_0000 && s.scorePolicy == SUM
    requires IsResultAfter(s, verdicts, percentage, start, r)
    ensures r.score == Wrap32(start.score + Gain(s, verdicts))
    ensures r.totalTime == WrapU32(start.totalTime + TimeOf(s, verdicts, Clean(s, verdicts, 0)))
  {
    if PassedCount(s, verdicts, Clean(s, verdicts, 0)) == 0 {
      WrapFits(start.score);
    }
  }

  lemma OneMore(count: nat, gain: int)
    ensures Wrap32(Wrap32(count * gain) + gain) == Wrap32((count + 1) * gain)
  {
    OneMoreShare(count, gain);
    WrapScore(count * gain, gain);
  }

  lemma OneMoreTime(count: nat, time: nat)
    ensures WrapU32(WrapU32(count * time) + time) == WrapU32((count + 1) * time)
  {
    OneMoreShare(count, time);
    WrapAdd(count * time, time);
  }

  /** The result after this many runs of the subtask. */
  ghost predicate Tallies(s: Subtask, verdicts: Verdicts, count: nat, r: SubtaskResult)
    requires 0 < |s.testCases| < 0x8000_0000
  {
    && r.score == Wrap32(count * Gain(s, verdicts))
    && r.totalTime == WrapU32(count * TimeOf(s, verdicts, Clean(s, verdicts, 0)))
  }

  lemma TallyOnce(s: Subtask, verdicts: Verdicts, percentage: (Subtask, nat) -> int32, count: nat,
                  start: SubtaskResult, r: SubtaskResult)
    requires 0 < |s.testCases| < 0x8000_0000 && s.scorePolicy == SUM
    requires Tallies(s, verdicts, count, start) && IsResultAfter(s, verdicts, percentage, start, r)
    ensures Tallies(s, verdicts, count + 1, r)
  {
    GainOnce(s, verdicts, percentage, start, r);
    OneMore(count, Gain(s, verdicts));
    OneMoreTime(count, TimeOf(s, verdicts, Clean(s, verdicts, 0)));
  }

  /** Every call of a subtask adds to the same result. */
  lemma {:induction false} ScoreAfterCalls(subtasks: seq<Subtask>, verdicts: Verdicts,
                                           percentage: (Subtask, nat) -> int32, order: seq<uint32>,
                                           results: map<uint32, SubtaskResult>, id: uint32)
    requires CasesFit(subtasks) && Called(subtasks, verdicts, percentage, order, results)
    requires forall v :: v in order ==> v in Ids(subtasks)
    requires id in Ids(subtasks) && Find(subtasks, id) in subtasks
    requires Find(subtasks, id).scorePolicy == SUM && Find(subtasks, id).testCases != []
    ensures id in results && Tallies(Find(subtasks, id), verdicts, multiset(order)[id], results[id])
    decreases |order|
  {
    if order == [] {
      InitialTally(subtasks, verdicts, id);
    } else {
      var n := |order| - 1;
      var before :| Called(subtasks, verdicts, percentage, order[..n], before)
                    && CalledOnce(Find(subtasks, order[n]), verdicts, percentage, order[n], before, results);
      ScoreAfterCalls(subtasks, verdicts, percentage, order[..n], before, id);
      TallyCall(subtasks, verdicts, percentage, multiset(order[..n])[id], id, order[n], before, results);
      CountLast(order, id);
    }
  }

  lemma TallyCall(subtasks: seq<Subtask>, verdicts: Verdicts, percentage: (Subtask, nat) -> int32, count: nat,
                  id: uint32, called: uint32, before: map<uint32, SubtaskResult>, after: map<uint32, SubtaskResult>)
    requires 0 < |Find(subtasks, id).testCases| < 0x8000_0000 && Find(subtasks, id).scorePolicy == SUM
    requires id in before && Tallies(Find(subtasks, id), verdicts, count, before[id])
    requires CalledOnce(Find(subtasks, called), verdicts, percentage, called, before, after)
    ensures id in after
    ensures Tallies(Find(subtasks, id), verdicts, if called == id then count + 1 else count, after[id])
  {
    if called == id {
      TallyOnce(Find(subtasks, id), verdicts, percentage, count, before[id], after[id]);
    }
  }

  lemma InitialTally(subtasks: seq<Subtask>, verdicts: Verdicts, id: uint32)
    requires id in Ids(subtasks) && 0 < |Find(subtasks, id).testCases| < 0x8000_0000
    ensures id in InitialScores(subtasks)
    ensures Tallies(Find(subtasks, id), verdicts, 0, InitialScores(subtasks)[id])
  {
    InitialFound(subtasks);
  }

  /** A subtask that nobody depends on scores as often as its id is listed. */
  lemma RepeatedScore(subtasks: seq<Subtask>, verdicts: Verdicts, percentage: (Subtask, nat) -> int32,
                      order: seq<uint32>, results: map<uint32, SubtaskResult>, id: uint32)
    requires CasesFit(subtasks) && JudgingOrder(subtasks, verdicts, order) && !Crashes(subtasks, order)
    requires Called(subtasks, verdicts, percentage, order, results)
    requires id in Ids(subtasks) && !IsDependency(subtasks, id) && Find(subtasks, id) in subtasks
    requires Find(subtasks, id).scorePolicy == SUM && Find(subtasks, id).testCases != []
    ensures id in results
    ensures results[id].score == Wrap32(multiset(Ids(subtasks))[id] * Gain(Find(subtasks, id), verdicts))
  {
    RunNodes(subtasks, verdicts, order, id);
    ScoreAfterCalls(subtasks, verdicts, percentage, order, results, id);
  }

  /** The subtask is listed twice, worth 10 with one accepted case. */
  ghost predicate IsTwice(subtasks: seq<Subtask>, verdicts: Verdicts, t: TestCase) {
    && |subtasks| == 2 && subtasks[0] == subtasks[1] && subtasks[0] == Subtask(1, 10, SUM, [], [t])
    && verdicts(1, 0) == Judged(Accepted, 0, 0)
  }

  lemma TwiceFacts(subtasks: seq<Subtask>, verdicts: Verdicts, t: TestCase)
    requires IsTwice(subtasks, verdicts, t)
    ensures CasesFit(subtasks) && multiset(Ids(subtasks))[1] == 2 && !IsDependency(subtasks, 1)
    ensures Find(subtasks, 1) == subtasks[0] && Gain(subtasks[0], verdicts) == 10
  {
    var s := subtasks[0];
    assert Ids(subtasks) == [1] + [1];
    assert 1 in Ids(subtasks);
    FindListed(subtasks, 1);
    assert Clean(s, verdicts, 1) == 1 && Clean(s, verdicts, 0) == 1;
    assert PassedCount(s, verdicts, 0) == 0 && PassedCount(s, verdicts, 1) == 1;
  }

  /** It is judged twice and scores 20. */
  lemma TwiceListedScoresTwice(subtasks: seq<Subtask>, verdicts: Verdicts, t: TestCase,
                               percentage: (Subtask, nat) -> int32, order: seq<uint32>,
                               results: map<uint32, SubtaskResult>)
    requires IsTwice(subtasks, verdicts, t)
    requires JudgingOrder(subtasks, verdicts, order) && !Crashes(subtasks, order)
    requires CasesFit(subtasks) && Called(subtasks, verdicts, percentage, order, results)
    ensures !Distinct(order) && 1 in results && results[1].score == 20
  {
    TwiceFacts(subtasks, verdicts, t);
    CallsAreDistinctIff(subtasks, verdicts, order);
    FindListed(subtasks, 1);
    RepeatedScore(subtasks, verdicts, percentage, order, results, 1);
    WrapFits(20);
  }
}
