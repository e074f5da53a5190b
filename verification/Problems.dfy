/** The parts of a problem that the judge works with (proto/model.proto). */
module Problems {
  import opened Digraph

  type int32 = x: int | -0x8000_0000 <= x < 0x8000_0000

  datatype ProblemKind = CLASSIC | SPECIAL

  datatype ScorePolicy = SUM | MIN | PCT

  datatype Conclusion =
    | Invalid | Accepted | WrongAnswer | PartiallyCorrect | MemoryLimitExceeded | TimeLimitExceeded
    | OutputLimitExceeded | FileError | NonZeroExitStatus | Signalled | DangerousSyscall | JudgementFailed
    | InvalidInteraction | InternalError | CompilationError

  datatype TestCase = TestCase(inputKey: string, inputSize: nat, outputKey: string, outputSize: nat)

  datatype Subtask = Subtask(id: uint32, score: int32, scorePolicy: ScorePolicy,
                             dependencies: seq<uint32>, testCases: seq<TestCase>)

  /** An absent special-judge key is the empty string, as its getter returns. */
  datatype Problem = Problem(id: string, ver: string, kind: ProblemKind, spjBinaryKey: string, subtasks: seq<Subtask>)

  /** Stands for the nil that a look-up of a missing subtask returns. */
  const NO_SUBTASK: Subtask := Subtask(0, 0, SUM, [], [])

  function Ids(subtasks: seq<Subtask>): (ids: seq<uint32>) {
    seq(|subtasks|, i requires 0 <= i < |subtasks| => subtasks[i].id)
  }

  ghost predicate DistinctIds(subtasks: seq<Subtask>) {
    forall i, j :: 0 <= i < j < |subtasks| ==> subtasks[i].id != subtasks[j].id
  }

  ghost predicate DependenciesExist(subtasks: seq<Subtask>) {
    forall s, v :: s in subtasks && v in s.dependencies ==> v in Ids(subtasks)
  }
}
